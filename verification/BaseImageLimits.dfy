/** How far the publication protocol reaches: the exact conditions under which it protects
    the base image, and the schedules that defeat it outside them. */
module BaseImageLimits {
  import opened Wrappers
  import opened Names
  import opened Storage
  import opened BaseImage

  ghost predicate Reaches(env: Env, s: Sys, t: Sys) {
    exists steps :: Run(env, s, steps) == t
  }

  lemma {:induction false} RunConcat(env: Env, s: Sys, xs: seq<Step>, ys: seq<Step>)
    ensures Run(env, s, xs + ys) == Run(env, Run(env, s, xs), ys)
    decreases |xs|
  {
    if xs == [] {
      assert xs + ys == ys;
    } else {
      assert (xs + ys)[1..] == xs[1..] + ys;
      RunConcat(env, Next(env, s, xs[0]), xs[1..], ys);
    }
  }

  lemma Then(env: Env, s: Sys, t: Sys, p: nat, act: Act) returns (u: Sys)
    requires Reaches(env, s, t) && p in t.runs
    ensures u == Perform(env, t, p, act)
    ensures Reaches(env, s, u)
  {
    var steps :| Run(env, s, steps) == t;
    u := Perform(env, t, p, act);
    RunConcat(env, s, steps, [OfRun(p, act)]);
    assert Run(env, t, [OfRun(p, act)]) == Run(env, u, []);
    assert Run(env, s, steps + [OfRun(p, act)]) == u;
  }

  /** The pinned image can be had, and an empty volume is not it. */
  ghost predicate Obtainable(env: Env, b: string, image: Bytes) {
    env.sha(image) == env.pinned(b) && env.sha([]) != env.pinned(b)
  }

  function Succeeds(image: Bytes): Act {
    Command(Answer(true, true, image, 0))
  }

  /** A run that found no volume starts the lock, lists, downloads and creates the volume. */
  lemma UpToCreated(env: Env, s: Sys, t: Sys, p: nat, image: Bytes) returns (u: Sys)
    requires Reaches(env, s, t) && p in t.runs && t.runs[p].pc.Downloading?
    requires Obtainable(env, t.runs[p].base, image) && t.runs[p].base !in t.pool.disk
    ensures Reaches(env, s, u) && Cached(env, u, t.runs[p])
    ensures u.runs == t.runs[p := t.runs[p].(pc := Uploading)] && u.locks == t.locks
    ensures u.pool == t.pool.Create(t.runs[p].base, Volume([], None))
  {
    var d := Then(env, s, t, p, Succeeds(image));
    assert d == Goto(Effect(env, t, t.runs[p], Succeeds(image).answer), p, Creating);
    u := Then(env, s, d, p, Succeeds(image));
    assert u.runs[p].pc == Uploading;
  }

  /** With the marker there already, an empty volume created beside it is unsound. */
  lemma EmptyBesideMarker(env: Env, s: Sys, t: Sys, p: nat, image: Bytes)
    requires Configured(t) && Reaches(env, s, t) && p in t.runs && t.runs[p].pc.Downloading?
    requires Obtainable(env, t.runs[p].base, image) && t.runs[p].base !in t.pool.disk
    requires Published(t.pool, t.runs[p].base)
    ensures exists steps :: !Sound(env, Run(env, s, steps).pool)
  {
    var u := UpToCreated(env, s, t, p, image);
    var b := t.runs[p].base;
    assert b in u.pool.disk && Published(u.pool, b) && !Complete(env, u.pool, b);
  }

  lemma EnterAndList(env: Env, s: Sys, t: Sys, p: nat) returns (u: Sys)
    requires Reaches(env, s, t) && p in t.runs && t.runs[p].pc.Idle? && t.runs[p].home !in t.locks
    requires var b := t.runs[p].base; b !in t.pool.listed || Marker(b) !in t.pool.listed
    ensures Reaches(env, s, u) && u.pool == t.pool && u.cache == t.cache
    ensures u.locks == t.locks[t.runs[p].home := p]
    ensures u.runs == t.runs[p := t.runs[p].(pc := if t.runs[p].base in t.pool.listed then Deleting else Downloading)]
  {
    var e := Then(env, s, t, p, Enter);
    var l := Then(env, s, e, p, Lock);
    u := Then(env, s, l, p, Succeeds([]));
  }

  // --- deleting a base volume by hand -----------------------------------------

  /** The clean-up the documentation gives for an old image: a vol-delete of the volume. */
  function HandDelete(s: Sys, b: string): Sys {
    s.(pool := s.pool.Delete(b))
  }

  /** Every lock is held by a run of its home that is inside the `with` block. */
  ghost predicate LocksOwned(s: Sys) {
    forall h :: h in s.locks ==>
      var q := s.locks[h];
      q in s.runs && s.runs[q].home == h && Holding(s.runs[q].pc)
  }

  /** A run that stays inside the block keeps the lock, and one that leaves it gives it up. */
  lemma MoveKeepsLocks(s: Sys, t: Sys, p: nat)
    requires LocksOwned(s) && p in s.runs && p in t.runs
    requires t.runs == s.runs[p := s.runs[p].(pc := t.runs[p].pc)]
    requires t.locks == s.locks || t.locks == Unlock(s, p).locks
    requires Holding(s.runs[p].pc) ==> Holding(t.runs[p].pc) || t.locks == Unlock(s, p).locks
    ensures LocksOwned(t)
  {
  }

  lemma NextKeepsLocks(env: Env, s: Sys, step: Step)
    requires LocksOwned(s)
    ensures LocksOwned(Next(env, s, step))
  {
    if step.OfRun? && step.run in s.runs {
      var p, t := step.run, Next(env, s, step);
      match step.act
      case Command(a) =>
        if Holding(s.runs[p].pc) {
          IssueByEffect(env, s, p, a);
          MoveKeepsLocks(s, t, p);
        }
      case Crash(a) =>
        DieByEffect(env, s, p, a);
        MoveKeepsLocks(s, t, p);
      case _ =>
    }
  }

  lemma {:induction false} RunKeepsLocks(env: Env, s: Sys, steps: seq<Step>)
    requires LocksOwned(s)
    ensures LocksOwned(Run(env, s, steps))
    decreases |steps|
  {
    if steps != [] {
      NextKeepsLocks(env, s, steps[0]);
      RunKeepsLocks(env, Next(env, s, steps[0]), steps[1..]);
    }
  }

  /** Run p is killed between two commands. */
  lemma Kill(env: Env, s: Sys, t: Sys, p: nat) returns (u: Sys)
    requires Reaches(env, s, t) && p in t.runs && LocksOwned(t)
    ensures Reaches(env, s, u) && LocksOwned(u) && u.pool == t.pool
    ensures u.runs == t.runs[p := t.runs[p].(pc := Idle)]
    ensures u.locks == t.locks || u.locks == t.locks - {t.runs[p].home}
    ensures t.runs[p].home in t.locks && t.locks[t.runs[p].home] == p ==> t.runs[p].home !in u.locks
  {
    var a := Answer(false, false, [], 0);
    DieByEffect(env, t, p, a);
    NextKeepsLocks(env, t, OfRun(p, Crash(a)));
    u := Then(env, s, t, p, Crash(a));
  }

  /** Whatever is going on, a run and whoever holds its lock can be killed. */
  lemma StartOver(env: Env, s: Sys, t: Sys, p: nat) returns (u: Sys)
    requires Reaches(env, s, t) && p in t.runs && LocksOwned(t)
    ensures Reaches(env, s, u) && u.pool == t.pool
    ensures p in u.runs && u.runs[p] == t.runs[p].(pc := Idle) && u.runs[p].home !in u.locks
    ensures Configured(t) ==> Configured(u)
  {
    u := Kill(env, s, t, p);
    var home := t.runs[p].home;
    if home in u.locks {
      u := Kill(env, s, u, u.locks[home]);
    }
  }

  /** A run can find the volume gone and its marker there, and upload beside it. */
  lemma MarkerAlone(env: Env, s: Sys, t: Sys, p: nat, image: Bytes)
    requires Configured(t) && LocksOwned(t) && Reaches(env, s, t) && p in t.runs
    requires Obtainable(env, t.runs[p].base, image)
    requires Published(t.pool, t.runs[p].base)
    requires t.runs[p].base !in t.pool.disk && t.runs[p].base !in t.pool.listed
    ensures exists steps :: !Sound(env, Run(env, s, steps).pool)
  {
    var u := StartOver(env, s, t, p);
    var v := EnterAndList(env, s, u, p);
    EmptyBesideMarker(env, s, v, p, image);
  }

  /** No marker for b, nor any run about to create it. */
  ghost predicate NoMarkerToCome(s: Sys, b: string) {
    !Published(s.pool, b) && forall q :: q in s.runs && s.runs[q].base == b ==> !s.runs[q].pc.Marking?
  }

  /** A run at its marker creates it though the volume has been deleted. */
  lemma MarkAfterDelete(env: Env, s: Sys, q: nat, image: Bytes)
    requires Configured(s) && LocksOwned(s) && q in s.runs && s.runs[q].pc.Marking?
    requires !Published(s.pool, s.runs[q].base) && Obtainable(env, s.runs[q].base, image)
    ensures exists steps :: !Sound(env, Run(env, HandDelete(s, s.runs[q].base), steps).pool)
  {
    var b := s.runs[q].base;
    var t := HandDelete(s, b);
    assert Run(env, t, []) == t;
    var u := Then(env, t, t, q, Succeeds(image));
    MarkSucceeds(env, t, q, image);
    NextKeepsLocks(env, t, OfRun(q, Succeeds(image)));
    MarkerAlone(env, t, u, q, image);
  }

  lemma MarkSucceeds(env: Env, t: Sys, q: nat, image: Bytes)
    requires q in t.runs && t.runs[q].pc.Marking? && IsBase(t.runs[q].base)
    requires !Published(t.pool, t.runs[q].base)
    ensures var u := Perform(env, t, q, Succeeds(image));
            && u.runs == t.runs[q := t.runs[q].(pc := Ready)]
            && u.pool == t.pool.Create(Marker(t.runs[q].base), Volume([], None))
            && Marker(t.runs[q].base) != t.runs[q].base
            && u.locks == Unlock(t, q).locks
  {
    MarkersDistinct(t.runs[q].base, t.runs[q].base);
  }

  lemma DeleteUnmarkedKeepsInv(env: Env, s: Sys, b: string)
    requires Inv(env, s) && IsBase(b) && NoMarkerToCome(s, b)
    ensures Inv(env, HandDelete(s, b))
  {
    var t := HandDelete(s, b);
    forall c | IsBase(c)
      ensures Published(t.pool, c) <==> Published(s.pool, c)
      ensures c != b ==> (Complete(env, t.pool, c) <==> Complete(env, s.pool, c))
    {
      MarkersDistinct(b, c);
    }
    forall p | p in t.runs ensures HoldsLock(t, p) && PcInv(env, t, t.runs[p]) {
      assert HoldsLock(s, p) && PcInv(env, s, s.runs[p]);
    }
  }

  /** At any moment of any schedule, deleting by hand a base volume that some run pins is safe
      for every later schedule exactly when the volume has no marker and no run is about to
      create one. */
  lemma HandDeleteExact(env: Env, start: Sys, past: seq<Step>, b: string, image: Bytes)
    requires Init(env, start) && OneLockPerImage(start) && Obtainable(env, b, image)
    requires exists p :: p in Run(env, start, past).runs && Run(env, start, past).runs[p].base == b
    ensures var s := Run(env, start, past);
            (forall steps :: Sound(env, Run(env, HandDelete(s, b), steps).pool)) <==> NoMarkerToCome(s, b)
  {
    InitHolds(env, start);
    RunKeepsInv(env, start, past);
    RunKeepsLocks(env, start, past);
    HandDeleteExactFrom(env, Run(env, start, past), b, image);
  }

  lemma HandDeleteExactFrom(env: Env, s: Sys, b: string, image: Bytes)
    requires Inv(env, s) && LocksOwned(s) && Obtainable(env, b, image)
    requires exists p :: p in s.runs && s.runs[p].base == b
    ensures (forall steps :: Sound(env, Run(env, HandDelete(s, b), steps).pool)) <==> NoMarkerToCome(s, b)
  {
    var p :| p in s.runs && s.runs[p].base == b;
    var t := HandDelete(s, b);
    MarkersDistinct(b, b);
    if Published(s.pool, b) {
      assert Run(env, t, []) == t;
      MarkerAlone(env, t, t, p, image);
    } else if q :| q in s.runs && s.runs[q].base == b && s.runs[q].pc.Marking? {
      MarkAfterDelete(env, s, q, image);
    } else {
      DeleteUnmarkedKeepsInv(env, s, b);
      forall steps ensures Sound(env, Run(env, t, steps).pool) {
        RunKeepsInv(env, t, steps);
      }
    }
  }

  // --- two cache directories --------------------------------------------------

  /** Death in mid-upload leaves what the upload had written. */
  lemma DieUploading(env: Env, s: Sys, t: Sys, p: nat) returns (u: Sys)
    requires Reaches(env, s, t) && p in t.runs && t.runs[p].pc.Uploading?
    requires t.locks == map[t.runs[p].home := p]
    ensures Reaches(env, s, u) && u.pool == t.pool && u.locks == map[]
    ensures u.runs == t.runs[p := t.runs[p].(pc := Idle)]
  {
    u := Then(env, s, t, p, Crash(Answer(false, false, [], 0)));
  }

  lemma LeaveEmptyVolume(env: Env, s: Sys, p: nat, image: Bytes) returns (t: Sys)
    requires Init(env, s) && p in s.runs && Obtainable(env, s.runs[p].base, image)
    requires !Published(s.pool, s.runs[p].base)
    ensures Reaches(env, s, t) && t.runs == s.runs && t.locks == map[]
    ensures t.runs[p].base in t.pool.disk && t.runs[p].base in t.pool.listed
    ensures Marker(t.runs[p].base) !in t.pool.disk && Marker(t.runs[p].base) !in t.pool.listed
  {
    var b := s.runs[p].base;
    MarkersDistinct(b, b);
    assert Run(env, s, []) == s;
    if b in s.pool.disk {
      t := s;
    } else {
      var l := EnterAndList(env, s, s, p);
      var c := UpToCreated(env, s, l, p, image);
      t := DieUploading(env, s, c, p);
      assert t.runs == s.runs;
    }
  }

  /** A run that has decided to replace a volume deletes it, marked by now or not. */
  lemma DeleteFound(env: Env, s: Sys, t: Sys, q: nat, image: Bytes) returns (x: Sys)
    requires Reaches(env, s, t) && q in t.runs && t.runs[q].pc.Deleting? && t.runs[q].base in t.pool.listed
    ensures Reaches(env, s, x) && x.runs == t.runs[q := t.runs[q].(pc := Downloading)]
    ensures x.pool == t.pool.Delete(t.runs[q].base)
  {
    x := Then(env, s, t, q, Succeeds(image));
  }

  lemma UploadSucceeds(env: Env, t: Sys, p: nat, image: Bytes)
    requires p in t.runs && t.runs[p].pc.Uploading?
    requires t.runs[p].base in t.pool.listed && CacheKey(env, t.runs[p]) in t.cache
    ensures var u := Perform(env, t, p, Succeeds(image));
            && u.runs == t.runs[p := t.runs[p].(pc := Marking)]
            && u.pool == t.pool.Write(t.runs[p].base, t.cache[CacheKey(env, t.runs[p])])
  {
  }

  lemma PublishFrom(env: Env, s: Sys, t: Sys, p: nat, image: Bytes) returns (u: Sys)
    requires Reaches(env, s, t) && p in t.runs && t.runs[p].pc.Deleting? && IsBase(t.runs[p].base)
    requires Obtainable(env, t.runs[p].base, image)
    requires t.runs[p].base in t.pool.listed
    requires Marker(t.runs[p].base) !in t.pool.disk
    ensures Reaches(env, s, u) && u.runs == t.runs[p := t.runs[p].(pc := Ready)]
    ensures t.runs[p].base in u.pool.listed && Published(u.pool, t.runs[p].base)
  {
    var b := t.runs[p].base;
    MarkersDistinct(b, b);
    var d := DeleteFound(env, s, t, p, image);
    var c := UpToCreated(env, s, d, p, image);
    var w := Then(env, s, c, p, Succeeds(image));
    UploadSucceeds(env, c, p, image);
    u := Then(env, s, w, p, Succeeds(image));
    MarkSucceeds(env, w, p, image);
  }

  lemma BothFindIt(env: Env, s: Sys, p: nat, q: nat, image: Bytes) returns (v: Sys)
    requires Init(env, s) && p in s.runs && q in s.runs
    requires s.runs[p].base == s.runs[q].base && s.runs[p].home != s.runs[q].home
    requires !Published(s.pool, s.runs[p].base) && Obtainable(env, s.runs[p].base, image)
    ensures Reaches(env, s, v)
    ensures v.runs == s.runs[q := s.runs[q].(pc := Deleting)][p := s.runs[p].(pc := Deleting)]
    ensures s.runs[p].base in v.pool.listed && Marker(s.runs[p].base) !in v.pool.disk
  {
    var t := LeaveEmptyVolume(env, s, p, image);
    var u := EnterAndList(env, s, t, q);
    v := EnterAndList(env, s, u, p);
  }

  /** Two runs of one unpublished image that do not share a lock file can leave a truncated
      volume marked. */
  lemma TwoLocksDefeatIt(env: Env, s: Sys, p: nat, q: nat, image: Bytes)
    requires Init(env, s) && p in s.runs && q in s.runs
    requires s.runs[p].base == s.runs[q].base && s.runs[p].home != s.runs[q].home
    requires !Published(s.pool, s.runs[p].base) && Obtainable(env, s.runs[p].base, image)
    ensures exists steps :: !Sound(env, Run(env, s, steps).pool)
  {
    var v := BothFindIt(env, s, p, q, image);
    var w := PublishFrom(env, s, v, p, image);
    var x := DeleteFound(env, s, w, q, image);
    MarkersDistinct(s.runs[q].base, s.runs[q].base);
    EmptyBesideMarker(env, s, x, q, image);
  }

  /** The lock does its job exactly for runs of one home: every schedule stays sound if and
      only if runs that pin the same unpublished image share a cache directory. */
  lemma OneLockExact(env: Env, s: Sys, images: map<string, Bytes>)
    requires Init(env, s)
    requires forall p :: p in s.runs ==>
               s.runs[p].base in images && Obtainable(env, s.runs[p].base, images[s.runs[p].base])
    ensures (forall steps :: Sound(env, Run(env, s, steps).pool)) <==> OneLockPerImage(s)
  {
    if OneLockPerImage(s) {
      forall steps ensures Sound(env, Run(env, s, steps).pool) {
        EveryStateSound(env, s, steps);
      }
    } else {
      var p, q :| p in s.runs && q in s.runs && s.runs[p].base == s.runs[q].base &&
        s.runs[p].home != s.runs[q].home && !Published(s.pool, s.runs[p].base);
      TwoLocksDefeatIt(env, s, p, q, images[s.runs[p].base]);
    }
  }
}
