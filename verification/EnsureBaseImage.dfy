/** `ensure_base_image` as the code runs it, with other runs, teardowns and sweeps at work
    before every one of its commands. Its executions are executions of the protocol machine,
    so everything proved of that machine holds of the code. */
module EnsureBaseImage {
  import opened Wrappers
  import opened Names
  import opened Storage
  import opened BaseImage
  import opened BaseImageLimits

  /** How the call ends; `Blocked` is a call that still waits for the lock. */
  datatype Outcome = Returned(name: string) | Threw | Blocked

  /** The machine all runs share. */
  class Machine {
    const env: Env
    var pool: Pool
    var cache: map<(nat, string), Bytes>
    var locks: map<nat, nat>
    var runs: map<nat, RunState>

    constructor (env: Env, s: Sys)
      ensures this.env == env && State() == s
    {
      this.env := env;
      pool, cache, locks, runs := s.pool, s.cache, s.locks, s.runs;
    }

    function State(): Sys
      reads this
    {
      Sys(pool, cache, locks, runs)
    }

    /** Run p, configured and placed as r says, has come here by steps of the protocol. */
    ghost predicate OnTrack(start: Sys, p: nat, r: RunState)
      reads this
    {
      Inv(env, start) && Reaches(env, start, State()) && p in runs && runs[p] == r
    }

    /** The others run for a while. */
    method Others(p: nat, steps: seq<Step>)
      requires p in runs && NoneOf(p, steps)
      modifies this
      ensures State() == Run(env, old(State()), steps)
      ensures p in runs && runs[p] == old(runs[p])
    {
      OthersKeepRun(env, State(), steps, p);
      var s := Run(env, State(), steps);
      pool, cache, locks, runs := s.pool, s.cache, s.locks, s.runs;
    }

    /** Records how far run p has come. */
    method At(p: nat, pc: Pc)
      requires p in runs
      modifies `runs
      ensures runs == old(runs)[p := old(runs)[p].(pc := pc)]
    {
      runs := runs[p := runs[p].(pc := pc)];
    }

    /** Leaves the `with` block that holds the lock. */
    method Release(p: nat, pc: Pc)
      requires p in runs
      modifies `runs, `locks
      ensures State() == Exit(old(State()), p, pc)
    {
      var home := runs[p].home;
      if home in locks && locks[home] == p {
        locks := locks - {home};
      }
      At(p, pc);
    }

    method VolDelete(name: string, a: Answer) returns (ok: bool)
      modifies `pool
      ensures ok == (name in old(pool).listed && a.ok)
      ensures pool == if name in old(pool).listed && (a.ok || a.happened) then old(pool).Delete(name) else old(pool)
    {
      ok := name in pool.listed && a.ok;
      if name in pool.listed && (a.ok || a.happened) {
        pool := pool.Delete(name);
      }
    }

    method VolCreateAs(name: string, a: Answer) returns (ok: bool)
      modifies `pool
      ensures ok == (name !in old(pool).disk && a.ok)
      ensures pool == if name !in old(pool).disk && (a.ok || a.happened)
                      then old(pool).Create(name, Volume([], None)) else old(pool)
    {
      ok := name !in pool.disk && a.ok;
      if name !in pool.disk && (a.ok || a.happened) {
        pool := pool.Create(name, Volume([], None));
      }
    }

    method VolUpload(name: string, image: Bytes, a: Answer) returns (ok: bool)
      modifies `pool
      ensures ok == (name in old(pool).listed && a.ok)
      ensures pool == if name in old(pool).listed && (a.ok || a.happened)
                      then old(pool).Write(name, if a.ok then image else Cut(image, a.written)) else old(pool)
    {
      ok := name in pool.listed && a.ok;
      if name in pool.listed && (a.ok || a.happened) {
        pool := pool.Write(name, if a.ok then image else Cut(image, a.written));
      }
    }

    /** `_download_base`: the cached file when its checksum is right, else a download that
        replaces it only once verified. */
    method DownloadBase(p: nat, a: Answer) returns (ok: bool)
      requires p in runs
      modifies `cache
      ensures var r, s := runs[p], old(State()).(runs := runs);
              var good := Cached(env, s, r) || env.sha(a.fetched) == env.pinned(r.base);
              && ok == (good && a.ok)
              && cache == if !Cached(env, s, r) && good && (a.ok || a.happened)
                          then old(cache)[CacheKey(env, r) := a.fetched] else old(cache)
    {
      var want := env.pinned(runs[p].base);
      var dest := CacheKey(env, runs[p]);
      if dest in cache && env.sha(cache[dest]) == want {
        return a.ok;
      }
      if env.sha(a.fetched) != want {
        return false;
      }
      if a.ok || a.happened {
        cache := cache[dest := a.fetched];
      }
      return a.ok;
    }
  }

  predicate NoneOf(p: nat, steps: seq<Step>) {
    forall k :: 0 <= k < |steps| ==> !(steps[k].OfRun? && steps[k].run == p)
  }

  lemma IssueKeepsOthers(env: Env, s: Sys, q: nat, a: Answer, p: nat)
    requires q in s.runs && p in s.runs && p != q
    ensures var t := Issue(env, s, q, a); p in t.runs && t.runs[p] == s.runs[p]
  {
    var r := s.runs[q];
    if Possible(env, s, r, a) {
      assert Effect(env, s, r, a).runs == s.runs;
    }
  }

  lemma DieKeepsOthers(env: Env, s: Sys, q: nat, a: Answer, p: nat)
    requires q in s.runs && p in s.runs && p != q
    ensures var t := Die(env, s, q, a); p in t.runs && t.runs[p] == s.runs[p]
  {
    var r, cut := s.runs[q], a.(ok := false);
    if Possible(env, s, r, cut) {
      assert Effect(env, s, r, cut).runs == s.runs;
    }
  }

  lemma NextKeepsOthers(env: Env, s: Sys, step: Step, p: nat)
    requires p in s.runs && !(step.OfRun? && step.run == p)
    ensures var t := Next(env, s, step); p in t.runs && t.runs[p] == s.runs[p]
  {
    if step.OfRun? && step.run in s.runs {
      match step.act
      case Command(a) => IssueKeepsOthers(env, s, step.run, a, p);
      case Crash(a) => DieKeepsOthers(env, s, step.run, a, p);
      case _ =>
    }
  }

  lemma {:induction false} OthersKeepRun(env: Env, s: Sys, steps: seq<Step>, p: nat)
    requires p in s.runs && NoneOf(p, steps)
    ensures p in Run(env, s, steps).runs && Run(env, s, steps).runs[p] == s.runs[p]
    decreases |steps|
  {
    if steps != [] {
      NextKeepsOthers(env, s, steps[0], p);
      OthersKeepRun(env, Next(env, s, steps[0]), steps[1..], p);
    }
  }

  // --- what nobody else touches -------------------------------------------------

  /** Neither the volume nor its listing comes or goes. */
  predicate SameVolume(s: Pool, t: Pool, b: string) {
    (b in s.disk <==> b in t.disk) && (b in s.listed <==> b in t.listed)
  }

  lemma EffectSparesOthers(env: Env, s: Sys, p: nat, q: nat, a: Answer)
    requires Inv(env, s) && p in s.runs && q in s.runs && p != q
    requires Holding(s.runs[p].pc) && !Published(s.pool, s.runs[p].base)
    requires Holding(s.runs[q].pc) && Possible(env, s, s.runs[q], a)
    ensures SameVolume(s.pool, Effect(env, s, s.runs[q], a).pool, s.runs[p].base)
  {
    assert HoldsLock(s, p) && HoldsLock(s, q);
    assert s.runs[p].base != s.runs[q].base;
    EffectStaysHome(env, s, q, a);
    MarkersDistinct(s.runs[p].base, s.runs[q].base);
  }

  lemma ActSparesOthers(env: Env, s: Sys, p: nat, q: nat, act: Act)
    requires Inv(env, s) && p in s.runs && q in s.runs && p != q
    requires Holding(s.runs[p].pc) && !Published(s.pool, s.runs[p].base)
    ensures SameVolume(s.pool, Perform(env, s, q, act).pool, s.runs[p].base)
  {
    var r := s.runs[q];
    match act
    case AddOverlay(i) => OwnFilesNotShared(r, i);
    case Console(i, _) => OwnFilesNotShared(r, i);
    case Enter => case Lock => case Leave =>
    case _ =>
      ActsByEffect(env, s, q, act);
      if Holding(r.pc) && Possible(env, s, r, Ending(act)) { EffectSparesOthers(env, s, p, q, Ending(act)); }
  }

  /** Between its own commands, a run past its listing finds its volume as it left it. */
  lemma NextKeepsVolume(env: Env, s: Sys, step: Step, p: nat)
    requires Inv(env, s) && p in s.runs && !(step.OfRun? && step.run == p)
    requires Holding(s.runs[p].pc) && !s.runs[p].pc.Listing?
    ensures SameVolume(s.pool, Next(env, s, step).pool, s.runs[p].base)
  {
    assert !Published(s.pool, s.runs[p].base) by { assert PcInv(env, s, s.runs[p]); }
    if step.OfRun? && step.run in s.runs {
      ActSparesOthers(env, s, p, step.run, step.act);
    }
  }

  lemma {:induction false} OthersKeepVolume(env: Env, s: Sys, steps: seq<Step>, p: nat)
    requires Inv(env, s) && p in s.runs && NoneOf(p, steps)
    requires Holding(s.runs[p].pc) && !s.runs[p].pc.Listing?
    ensures SameVolume(s.pool, Run(env, s, steps).pool, s.runs[p].base)
    decreases |steps|
  {
    if steps != [] {
      NextKeepsVolume(env, s, steps[0], p);
      NextKeepsOthers(env, s, steps[0], p);
      NextKeepsInv(env, s, steps[0]);
      OthersKeepVolume(env, Next(env, s, steps[0]), steps[1..], p);
    }
  }

  /** One more stretch: the others' steps, then one act of run p, which still finds its volume
      as it left it. */
  lemma Stretch(env: Env, s: Sys, t: Sys, steps: seq<Step>, u: Sys, p: nat, act: Act)
    requires Inv(env, s) && Reaches(env, s, t) && p in t.runs && NoneOf(p, steps)
    requires Run(env, t, steps) == u && p in u.runs
    ensures Reaches(env, s, Perform(env, u, p, act))
    ensures act.Command? && Holding(u.runs[p].pc) ==> Reaches(env, s, Issue(env, u, p, act.answer))
    ensures HoldsLock(u, p) && PcInv(env, u, u.runs[p])
    ensures var b := u.runs[p].base; b in u.pool.disk <==> b in u.pool.listed
    ensures Holding(t.runs[p].pc) && !t.runs[p].pc.Listing? ==> SameVolume(t.pool, u.pool, t.runs[p].base)
  {
    var past :| Run(env, s, past) == t;
    RunKeepsInv(env, s, past);
    if Holding(t.runs[p].pc) && !t.runs[p].pc.Listing? { OthersKeepVolume(env, t, steps, p); }
    RunConcat(env, s, past, steps);
    assert Run(env, s, past + steps) == u;
    var v := Then(env, s, u, p, act);
    RunKeepsInv(env, s, past + steps);
  }

  method Enter(m: Machine, p: nat, ghost start: Sys, ghost r: RunState, steps: seq<Step>)
    requires m.OnTrack(start, p, r) && r.pc.Idle? && NoneOf(p, steps)
    modifies m
    ensures m.OnTrack(start, p, r.(pc := Locking))
  {
    ghost var was := m.State();
    m.Others(p, steps);
    Stretch(m.env, start, was, steps, m.State(), p, Act.Enter);
    m.At(p, Locking);
  }

  /** flock: true once the lock is this run's. */
  method AcquireLock(m: Machine, p: nat, ghost start: Sys, ghost r: RunState, steps: seq<Step>) returns (locked: bool)
    requires m.OnTrack(start, p, r) && r.pc.Locking? && NoneOf(p, steps)
    modifies m
    ensures m.OnTrack(start, p, if locked then r.(pc := Listing) else r)
    ensures !locked ==> r.home in m.locks
  {
    ghost var was := m.State();
    m.Others(p, steps);
    Stretch(m.env, start, was, steps, m.State(), p, Lock);
    var home := m.runs[p].home;
    locked := home !in m.locks;
    if locked {
      m.locks := m.locks[home := p];
      m.At(p, Listing);
    }
  }

  datatype Found = Nothing | Unmarked | Whole | ListingFailed

  /** vol-list, and the decision taken on it. */
  method Inspect(m: Machine, p: nat, ghost start: Sys, ghost r: RunState, steps: seq<Step>, a: Answer)
    returns (found: Found)
    requires m.OnTrack(start, p, r) && r.pc.Listing? && NoneOf(p, steps)
    modifies m
    ensures m.OnTrack(start, p, r.(pc := match found
                                         case Nothing => Downloading
                                         case Unmarked => Deleting
                                         case Whole => Ready
                                         case ListingFailed => Idle))
    ensures found.ListingFailed? <==> !a.ok
    ensures found.Unmarked? ==> r.base in m.pool.listed
    ensures found.Nothing? ==> r.base !in m.pool.disk
  {
    ghost var was := m.State();
    m.Others(p, steps);
    Stretch(m.env, start, was, steps, m.State(), p, Command(a));
    var name, existing := m.runs[p].base, m.pool.listed;
    if !a.ok {
      m.Release(p, Idle);
      return ListingFailed;
    }
    if name in existing && Marker(name) in existing {
      m.Release(p, Ready);
      return Whole;
    }
    if name in existing {
      m.At(p, Deleting);
      return Unmarked;
    }
    m.At(p, Downloading);
    return Nothing;
  }

  method DeleteUnmarked(m: Machine, p: nat, ghost start: Sys, ghost r: RunState, steps: seq<Step>, a: Answer)
    returns (ok: bool)
    requires m.OnTrack(start, p, r) && r.pc.Deleting? && NoneOf(p, steps) && r.base in m.pool.listed
    modifies m
    ensures m.OnTrack(start, p, r.(pc := if ok then Downloading else Idle))
    ensures ok == a.ok
    ensures ok ==> r.base !in m.pool.disk
  {
    ghost var was := m.State();
    m.Others(p, steps);
    Stretch(m.env, start, was, steps, m.State(), p, Command(a));
    ok := m.VolDelete(m.runs[p].base, a);
    if ok { m.At(p, Downloading); } else { m.Release(p, Idle); }
  }

  method Download(m: Machine, p: nat, ghost start: Sys, ghost r: RunState, steps: seq<Step>, a: Answer)
    returns (ok: bool)
    requires m.OnTrack(start, p, r) && r.pc.Downloading? && NoneOf(p, steps) && r.base !in m.pool.disk
    modifies m
    ensures m.OnTrack(start, p, r.(pc := if ok then Creating else Idle))
    ensures a.ok && m.env.sha(a.fetched) == m.env.pinned(r.base) ==> ok
    ensures r.base !in m.pool.disk
  {
    ghost var was := m.State();
    m.Others(p, steps);
    Stretch(m.env, start, was, steps, m.State(), p, Command(a));
    ok := m.DownloadBase(p, a);
    if ok { m.At(p, Creating); } else { m.Release(p, Idle); }
  }

  method CreateVolume(m: Machine, p: nat, ghost start: Sys, ghost r: RunState, steps: seq<Step>, a: Answer)
    returns (ok: bool)
    requires m.OnTrack(start, p, r) && r.pc.Creating? && NoneOf(p, steps) && r.base !in m.pool.disk
    modifies m
    ensures m.OnTrack(start, p, r.(pc := if ok then Uploading else Idle))
    ensures ok == a.ok
    ensures ok ==> r.base in m.pool.listed
  {
    ghost var was := m.State();
    m.Others(p, steps);
    Stretch(m.env, start, was, steps, m.State(), p, Command(a));
    ok := m.VolCreateAs(m.runs[p].base, a);
    if ok { m.At(p, Uploading); } else { m.Release(p, Idle); }
  }

  method Upload(m: Machine, p: nat, ghost start: Sys, ghost r: RunState, steps: seq<Step>, a: Answer)
    returns (ok: bool)
    requires m.OnTrack(start, p, r) && r.pc.Uploading? && NoneOf(p, steps) && r.base in m.pool.listed
    modifies m
    ensures m.OnTrack(start, p, r.(pc := if ok then Marking else Discarding))
    ensures ok == a.ok
    ensures r.base in m.pool.listed
  {
    ghost var was := m.State();
    m.Others(p, steps);
    Stretch(m.env, start, was, steps, m.State(), p, Command(a));
    var image := m.cache[CacheKey(m.env, m.runs[p])];
    ok := m.VolUpload(m.runs[p].base, image, a);
    m.At(p, if ok then Marking else Discarding);
  }

  /** The volume of the failed upload goes, unless its deletion fails too. */
  method DiscardPartial(m: Machine, p: nat, ghost start: Sys, ghost r: RunState, steps: seq<Step>, a: Answer)
    requires m.OnTrack(start, p, r) && r.pc.Discarding? && NoneOf(p, steps) && r.base in m.pool.listed
    modifies m
    ensures m.OnTrack(start, p, r.(pc := Idle))
    ensures a.ok ==> r.base !in m.pool.disk && r.base !in m.pool.listed
  {
    ghost var was := m.State();
    m.Others(p, steps);
    Stretch(m.env, start, was, steps, m.State(), p, Command(a));
    var _ := m.VolDelete(m.runs[p].base, a);
    m.Release(p, Idle);
  }

  method Mark(m: Machine, p: nat, ghost start: Sys, ghost r: RunState, steps: seq<Step>, a: Answer)
    returns (ok: bool)
    requires m.OnTrack(start, p, r) && r.pc.Marking? && NoneOf(p, steps)
    modifies m
    ensures m.OnTrack(start, p, r.(pc := if ok then Ready else Idle))
    ensures ok == a.ok
  {
    ghost var was := m.State();
    m.Others(p, steps);
    Stretch(m.env, start, was, steps, m.State(), p, Command(a));
    ghost var now := m.State();
    ok := m.VolCreateAs(Marker(m.runs[p].base), a);
    if ok { m.Release(p, Ready); } else { m.Release(p, Idle); }
    assert m.State() == Issue(m.env, now, p, a);
  }

  // The places of three commands in a call.
  const DOWNLOAD := 4
  const UPLOAD := 6
  const DISCARD := 7

  /** Every command that a call may issue before its upload succeeds, and the image served is the
      pinned one. */
  predicate GoodUntilUpload(env: Env, b: string, answer: nat -> Answer) {
    && (forall k: nat :: k < UPLOAD ==> answer(k).ok)
    && env.sha(answer(DOWNLOAD).fetched) == env.pinned(b)
  }

  /** The whole call. `others(k)` is what the rest of the machine does before the k-th command
      and `answer(k)` how that command ends. Whatever both are, the call is a run of the
      protocol, and a name it returns is that of a published, whole image. It waits only for a
      lock that is held, and raises only if a command of its own failed or the image it was
      served is not the pinned one: nothing that others do makes it fail. However it ends, the
      lock is given up, and after an upload that failed its partial volume is gone, unless
      its deletion failed too. */
  method Ensure(m: Machine, p: nat, others: nat -> seq<Step>, answer: nat -> Answer) returns (r: Outcome)
    requires Inv(m.env, m.State()) && p in m.runs && m.runs[p].pc.Idle?
    requires forall k :: NoneOf(p, others(k))
    modifies m
    ensures Reaches(m.env, old(m.State()), m.State())
    ensures Inv(m.env, m.State())
    ensures p in m.runs && m.runs[p] == old(m.runs[p]).(pc := if r.Returned? then Ready else if r.Blocked? then Locking else Idle)
    ensures r.Returned? ==> r.name == m.runs[p].base && Published(m.pool, r.name) && Complete(m.env, m.pool, r.name)
    ensures r.Blocked? ==> m.runs[p].home in m.locks
    ensures LocksOwned(old(m.State())) && !r.Blocked? ==>
              !(m.runs[p].home in m.locks && m.locks[m.runs[p].home] == p)
    ensures r.Threw? && GoodUntilUpload(m.env, m.runs[p].base, answer) && !answer(UPLOAD).ok && answer(DISCARD).ok ==>
              m.runs[p].base !in m.pool.disk && m.runs[p].base !in m.pool.listed
    ensures r.Threw? ==> (exists k :: !answer(k).ok) || m.env.sha(answer(DOWNLOAD).fetched) != m.env.pinned(m.runs[p].base)
  {
    ghost var start, me := m.State(), m.runs[p];
    assert Run(m.env, start, []) == start;
    Enter(m, p, start, me, others(0));
    r := Locked(m, p, start, me.(pc := Locking), others, answer);
    ghost var steps :| Run(m.env, start, steps) == m.State();
    RunKeepsInv(m.env, start, steps);
    if LocksOwned(start) { RunKeepsLocks(m.env, start, steps); }
    assert PcInv(m.env, m.State(), m.runs[p]);
  }

  /** The `with` block. */
  method Locked(m: Machine, p: nat, ghost start: Sys, ghost me: RunState, others: nat -> seq<Step>, answer: nat -> Answer)
    returns (r: Outcome)
    requires m.OnTrack(start, p, me) && me.pc.Locking? && forall k :: NoneOf(p, others(k))
    modifies m
    ensures m.OnTrack(start, p, me.(pc := if r.Returned? then Ready else if r.Blocked? then Locking else Idle))
    ensures r.Returned? ==> r.name == me.base
    ensures r.Blocked? ==> me.home in m.locks
    ensures r.Threw? && GoodUntilUpload(m.env, me.base, answer) && !answer(UPLOAD).ok && answer(DISCARD).ok ==>
              me.base !in m.pool.disk && me.base !in m.pool.listed
    ensures r.Threw? ==> (exists k :: !answer(k).ok) || m.env.sha(answer(DOWNLOAD).fetched) != m.env.pinned(me.base)
  {
    var name := m.runs[p].base;
    var locked := AcquireLock(m, p, start, me, others(1));
    if !locked { return Blocked; }
    var found := Inspect(m, p, start, me.(pc := Listing), others(2), answer(2));
    match found {
      case ListingFailed => return Threw;
      case Whole => return Returned(name);
      case Unmarked =>
        var deleted := DeleteUnmarked(m, p, start, me.(pc := Deleting), others(3), answer(3));
        if !deleted { return Threw; }
      case Nothing =>
    }
    var fetched := Download(m, p, start, me.(pc := Downloading), others(DOWNLOAD), answer(DOWNLOAD));
    if !fetched { return Threw; }
    var created := CreateVolume(m, p, start, me.(pc := Creating), others(5), answer(5));
    if !created { return Threw; }
    var uploaded := Upload(m, p, start, me.(pc := Uploading), others(UPLOAD), answer(UPLOAD));
    if !uploaded {
      DiscardPartial(m, p, start, me.(pc := Discarding), others(DISCARD), answer(DISCARD));
      return Threw;
    }
    var marked := Mark(m, p, start, me.(pc := Marking), others(8), answer(8));
    return if marked then Returned(name) else Threw;
  }
}
