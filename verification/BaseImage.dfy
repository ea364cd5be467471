/** Publication of the shared base image by any number of runs at once.

    Every run executes `ensure_base_image` one command at a time; teardowns, sweeps, QEMU and
    `_create_vm` of other runs interleave freely and hold no lock. A command may succeed, be
    refused, fail after it took effect, or be cut short by the death of its run, which
    releases the run's lock. A finite sequence of steps is one interleaving; a step that is
    not enabled does nothing, so a theorem over all sequences covers every schedule. */
module BaseImage {
  import opened Wrappers
  import opened Names
  import opened Storage

  /** Where a run is: the command it is about to issue. */
  datatype Pc =
    | Idle        // not in ensure_base_image
    | Locking     // waiting for the file lock
    | Listing     // vol-list
    | Deleting    // vol-delete of an unmarked volume
    | Downloading // _download_base
    | Creating    // vol-create-as of the volume
    | Uploading   // vol-upload
    | Discarding  // vol-delete after a failed upload
    | Marking     // vol-create-as of the marker
    | Ready       // ensure_base_image returned the volume's name

  /** A run: its id, the base volume it pins, and the home whose cache and lock file it uses. */
  datatype RunState = RunState(id: string, base: string, home: nat, pc: Pc)

  datatype Sys = Sys(
    pool: Pool,
    cache: map<(nat, string), Bytes>,
    locks: map<nat, nat>,
    runs: map<nat, RunState>)

  /** The digest, and the checksum a base volume's name stands for. */
  datatype Env = Env(sha: Bytes -> string, pinned: string -> string)

  /** How one command ends: whether it reports success, whether a failing or killed command
      took effect all the same, what the image URL served, how far an upload got. */
  datatype Answer = Answer(ok: bool, happened: bool, fetched: Bytes, written: nat)

  /** What a run, or QEMU on behalf of its domains, can do next. */
  datatype Act =
    | Enter
    | Lock
    | Command(answer: Answer)
    | Chunk(written: nat)     // a piece of the upload arrives
    | Crash(answer: Answer)   // the run is killed, perhaps in mid-command
    | AddOverlay(node: nat)
    | Console(node: nat, data: Bytes)
    | Leave

  datatype Step =
    | OfRun(run: nat, act: Act)
    | Refresh                 // pool-refresh, by any teardown or collect_consoles
    | Remove(volume: string)  // a vol-delete of destroy_run or sweep

  // --- one run's commands -----------------------------------------------------

  predicate Holding(pc: Pc) {
    !pc.Idle? && !pc.Locking? && !pc.Ready?
  }

  function CacheKey(env: Env, r: RunState): (nat, string) {
    var want := env.pinned(r.base);
    (r.home, if |want| < 16 then want else want[..16])
  }

  /** Two runs share a cached file when they share the home and the checksum's first sixteen
      digits. */
  lemma CacheKeyExact(env: Env, r: RunState, q: RunState)
    requires |env.pinned(r.base)| >= 16 && |env.pinned(q.base)| >= 16
    ensures CacheKey(env, r) == CacheKey(env, q)
            <==> r.home == q.home && env.pinned(r.base)[..16] == env.pinned(q.base)[..16]
  {
  }

  predicate Cached(env: Env, s: Sys, r: RunState) {
    var key := CacheKey(env, r);
    key in s.cache && env.sha(s.cache[key]) == env.pinned(r.base)
  }

  /** Whether the pool and the cache let the pending command succeed at all. */
  predicate Possible(env: Env, s: Sys, r: RunState, a: Answer) {
    match r.pc
    case Listing => true
    case Deleting => r.base in s.pool.listed
    case Downloading => Cached(env, s, r) || env.sha(a.fetched) == env.pinned(r.base)
    case Creating => r.base !in s.pool.disk && CacheKey(env, r) in s.cache
    case Uploading => r.base in s.pool.listed && CacheKey(env, r) in s.cache
    case Discarding => r.base in s.pool.listed
    case Marking => Marker(r.base) !in s.pool.disk
    case _ => false
  }

  function Cut(image: Bytes, n: nat): Bytes {
    if n < |image| then image[..n] else image
  }

  function Effect(env: Env, s: Sys, r: RunState, a: Answer): Sys
    requires Possible(env, s, r, a)
  {
    match r.pc
    case Deleting => s.(pool := s.pool.Delete(r.base))
    case Downloading =>
      if Cached(env, s, r) then s else s.(cache := s.cache[CacheKey(env, r) := a.fetched])
    case Creating => s.(pool := s.pool.Create(r.base, Volume([], None)))
    case Uploading =>
      var image := s.cache[CacheKey(env, r)];
      s.(pool := s.pool.Write(r.base, if a.ok then image else Cut(image, a.written)))
    case Discarding => s.(pool := s.pool.Delete(r.base))
    case Marking => s.(pool := s.pool.Create(Marker(r.base), Volume([], None)))
    case _ => s
  }

  function Goto(s: Sys, p: nat, pc: Pc): Sys
    requires p in s.runs
  {
    s.(runs := s.runs[p := s.runs[p].(pc := pc)])
  }

  /** Leaving the `with` block: the lock is released, by return, exception or death. */
  function Unlock(s: Sys, p: nat): Sys
    requires p in s.runs
  {
    var home := s.runs[p].home;
    if home in s.locks && s.locks[home] == p then s.(locks := s.locks - {home}) else s
  }

  function Exit(s: Sys, p: nat, pc: Pc): Sys
    requires p in s.runs
  {
    Goto(Unlock(s, p), p, pc)
  }

  /** The pending command succeeded. */
  function Advance(s: Sys, p: nat): Sys
    requires p in s.runs
  {
    var r := s.runs[p];
    match r.pc
    case Listing =>
      if r.base in s.pool.listed && Marker(r.base) in s.pool.listed then Exit(s, p, Ready)
      else if r.base in s.pool.listed then Goto(s, p, Deleting)
      else Goto(s, p, Downloading)
    case Deleting => Goto(s, p, Downloading)
    case Downloading => Goto(s, p, Creating)
    case Creating => Goto(s, p, Uploading)
    case Uploading => Goto(s, p, Marking)
    case Marking => Exit(s, p, Ready)
    case _ => Exit(s, p, Idle)
  }

  function Issue(env: Env, s: Sys, p: nat, a: Answer): Sys
    requires p in s.runs
  {
    var r := s.runs[p];
    var possible := Possible(env, s, r, a);
    var after := if possible && (a.ok || a.happened) then Effect(env, s, r, a) else s;
    if possible && a.ok then Advance(after, p)
    else if r.pc.Uploading? then Goto(after, p, Discarding)
    else Exit(after, p, Idle)
  }

  function Die(env: Env, s: Sys, p: nat, a: Answer): Sys
    requires p in s.runs
  {
    var r := s.runs[p];
    var cut := a.(ok := false);
    Exit(if Possible(env, s, r, cut) && a.happened then Effect(env, s, r, cut) else s, p, Idle)
  }

  /** `_create_vm`'s overlay on the base volume. */
  function WithOverlay(pool: Pool, r: RunState, i: nat): Pool {
    var name := OverlayName(r.id, i);
    if r.pc.Ready? && r.base in pool.listed && name !in pool.disk
    then pool.Create(name, Volume([], Some(r.base)))
    else pool
  }

  /** QEMU writes a console log behind libvirt's back. */
  function WithConsole(pool: Pool, r: RunState, i: nat, data: Bytes): Pool {
    pool.(disk := pool.disk[ConsoleName(r.id, i) := Volume(data, None)])
  }

  // --- the whole machine ------------------------------------------------------

  function Perform(env: Env, s: Sys, p: nat, act: Act): Sys
    requires p in s.runs
  {
    var r := s.runs[p];
    match act
    case Enter => if r.pc.Idle? then Goto(s, p, Locking) else s
    case Lock =>
      if r.pc.Locking? && r.home !in s.locks
      then Goto(s.(locks := s.locks[r.home := p]), p, Listing)
      else s
    case Command(a) => if Holding(r.pc) then Issue(env, s, p, a) else s
    case Chunk(n) =>
      if r.pc.Uploading? && r.base in s.pool.listed && CacheKey(env, r) in s.cache
      then s.(pool := s.pool.Write(r.base, Cut(s.cache[CacheKey(env, r)], n)))
      else s
    case Crash(a) => Die(env, s, p, a)
    case AddOverlay(i) => s.(pool := WithOverlay(s.pool, r, i))
    case Console(i, data) => s.(pool := WithConsole(s.pool, r, i, data))
    case Leave => if r.pc.Ready? then Goto(s, p, Idle) else s
  }

  function Next(env: Env, s: Sys, step: Step): Sys {
    match step
    case OfRun(p, act) => if p in s.runs then Perform(env, s, p, act) else s
    case Refresh => s.(pool := s.pool.Refresh())
    case Remove(v) => if BASE_PREFIX <= v || v !in s.pool.listed then s else s.(pool := s.pool.Delete(v))
  }

  function Run(env: Env, s: Sys, steps: seq<Step>): Sys
    decreases |steps|
  {
    if steps == [] then s else Run(env, Next(env, s, steps[0]), steps[1..])
  }

  // --- what must hold ---------------------------------------------------------

  predicate Published(pool: Pool, b: string) {
    Marker(b) in pool.disk
  }

  predicate Complete(env: Env, pool: Pool, b: string) {
    b in pool.disk && env.sha(pool.disk[b].data) == env.pinned(b)
  }

  /** A base volume that stands beside its marker holds the whole pinned image. */
  ghost predicate Sound(env: Env, pool: Pool) {
    forall b :: IsBase(b) && b in pool.disk && Published(pool, b) ==> Complete(env, pool, b)
  }

  /** Every overlay in the pool has its backing volume, published and whole. */
  ghost predicate Backed(env: Env, pool: Pool) {
    forall v :: v in pool.disk && pool.disk[v].backing.Some? ==>
      var b := pool.disk[v].backing.value;
      IsBase(b) && Published(pool, b) && Complete(env, pool, b)
  }

  ghost predicate Configured(s: Sys) {
    forall p :: p in s.runs ==> IsBase(s.runs[p].base) && LegalId(s.runs[p].id)
  }

  /** Runs that pin the same image, while it is not published, share a home: one cache
      directory, hence one lock file. */
  ghost predicate OneLockPerImage(s: Sys) {
    forall p, q :: p in s.runs && q in s.runs && s.runs[p].base == s.runs[q].base ==>
      s.runs[p].home == s.runs[q].home || Published(s.pool, s.runs[p].base)
  }

  /** Markers imply whole images, and libvirt lists every file under the base prefix. */
  ghost predicate PoolInv(env: Env, pool: Pool) {
    && (forall b :: IsBase(b) && Published(pool, b) ==> Complete(env, pool, b))
    && (forall v :: BASE_PREFIX <= v ==> (v in pool.disk <==> v in pool.listed))
    && (forall v :: v in pool.disk && pool.disk[v].backing.Some? ==>
          IsBase(pool.disk[v].backing.value) && Published(pool, pool.disk[v].backing.value))
  }

  /** What a run knows at each point. */
  ghost predicate PcInv(env: Env, s: Sys, r: RunState) {
    && (Holding(r.pc) && !r.pc.Listing? ==> !Published(s.pool, r.base))
    && (r.pc.Creating? || r.pc.Uploading? ==> Cached(env, s, r))
    && (r.pc.Marking? ==> Complete(env, s.pool, r.base))
    && (r.pc.Ready? ==> Published(s.pool, r.base))
  }

  ghost predicate HoldsLock(s: Sys, p: nat)
    requires p in s.runs
  {
    Holding(s.runs[p].pc) ==> s.runs[p].home in s.locks && s.locks[s.runs[p].home] == p
  }

  ghost predicate Inv(env: Env, s: Sys) {
    && Configured(s)
    && OneLockPerImage(s)
    && PoolInv(env, s.pool)
    && (forall p :: p in s.runs ==> HoldsLock(s, p) && PcInv(env, s, s.runs[p]))
  }

  /** A machine on which no run is in ensure_base_image, with a pool nobody tampered with. */
  ghost predicate Init(env: Env, s: Sys) {
    && Configured(s)
    && PoolInv(env, s.pool)
    && s.locks == map[]
    && (forall p :: p in s.runs ==> s.runs[p].pc == Idle)
  }

  // --- every step keeps the invariant ----------------------------------------

  /** Nothing under the base prefix differs. */
  ghost predicate SameShared(p: Pool, q: Pool) {
    forall v :: BASE_PREFIX <= v ==>
      && (v in p.disk <==> v in q.disk)
      && (v in p.disk ==> p.disk[v].data == q.disk[v].data)
      && (v in p.listed <==> v in q.listed)
  }

  /** Nothing but volume b and its marker differs. */
  ghost predicate SameBut(p: Pool, q: Pool, b: string) {
    forall v :: v != b && v != Marker(b) ==>
      && (v in p.disk <==> v in q.disk)
      && (v in p.disk ==> p.disk[v] == q.disk[v])
      && (v in p.listed <==> v in q.listed)
  }

  /** Nothing differs in the caches and locks of other homes. */
  ghost predicate SameElsewhere(s: Sys, t: Sys, home: nat) {
    && (forall k: (nat, string) :: k.0 != home ==>
          (k in s.cache <==> k in t.cache) && (k in s.cache ==> s.cache[k] == t.cache[k]))
    && (forall h :: h != home ==>
          (h in s.locks <==> h in t.locks) && (h in s.locks ==> s.locks[h] == t.locks[h]))
  }

  /** A step that leaves the shared volumes alone and creates overlays only on a published
      base keeps the invariant. */
  lemma UnsharedStep(env: Env, s: Sys, pool: Pool)
    requires Inv(env, s) && SameShared(s.pool, pool)
    requires forall v :: v in pool.disk && pool.disk[v].backing.Some? ==>
               IsBase(pool.disk[v].backing.value) && Published(s.pool, pool.disk[v].backing.value)
    ensures Inv(env, s.(pool := pool))
  {
    var t := s.(pool := pool);
    forall b | IsBase(b)
      ensures Published(s.pool, b) <==> Published(pool, b)
      ensures Complete(env, s.pool, b) <==> Complete(env, pool, b)
    {
      MarkersDistinct(b, b);
    }
    forall p | p in t.runs ensures HoldsLock(t, p) && PcInv(env, t, t.runs[p]) {
      assert HoldsLock(s, p) && PcInv(env, s, s.runs[p]);
    }
  }

  /** A step of a lock holder that stays within its own image, its own cache and its own lock
      disturbs no other run. */
  lemma HolderStep(env: Env, s: Sys, p: nat, t: Sys)
    requires Inv(env, s) && p in s.runs && Holding(s.runs[p].pc)
    requires p in t.runs && t.runs == s.runs[p := s.runs[p].(pc := t.runs[p].pc)]
    requires SameBut(s.pool, t.pool, s.runs[p].base)
    requires Published(s.pool, s.runs[p].base) ==> t.pool == s.pool
    requires SameElsewhere(s, t, s.runs[p].home)
    requires PoolInv(env, t.pool) && HoldsLock(t, p) && PcInv(env, t, t.runs[p])
    ensures Inv(env, t)
  {
    var b := s.runs[p].base;
    forall q | q in s.runs ensures Published(s.pool, s.runs[q].base) ==> Published(t.pool, s.runs[q].base) {
      MarkersDistinct(b, s.runs[q].base);
      MarkersDistinct(s.runs[q].base, b);
    }
    forall q | q in t.runs && q != p ensures HoldsLock(t, q) && PcInv(env, t, t.runs[q]) {
      assert HoldsLock(s, q) && PcInv(env, s, s.runs[q]) && HoldsLock(s, p);
      var c := s.runs[q].base;
      if Holding(s.runs[q].pc) {
        assert s.runs[q].home != s.runs[p].home;
        assert c != b || t.pool == s.pool;
      }
      MarkersDistinct(b, c);
      MarkersDistinct(c, b);
    }
  }

  lemma EffectKeepsBacking(env: Env, s: Sys, p: nat, a: Answer, v: string)
    requires Inv(env, s) && p in s.runs && Holding(s.runs[p].pc) && Possible(env, s, s.runs[p], a)
    requires var t := Effect(env, s, s.runs[p], a); v in t.pool.disk && t.pool.disk[v].backing.Some?
    ensures var t := Effect(env, s, s.runs[p], a);
            IsBase(t.pool.disk[v].backing.value) && Published(t.pool, t.pool.disk[v].backing.value)
  {
    var r := s.runs[p];
    var b := Effect(env, s, r, a).pool.disk[v].backing.value;
    assert v in s.pool.disk && s.pool.disk[v].backing == Some(b);
    MarkersDistinct(r.base, b);
  }

  lemma EffectStaysHome(env: Env, s: Sys, p: nat, a: Answer)
    requires Inv(env, s) && p in s.runs && Holding(s.runs[p].pc) && Possible(env, s, s.runs[p], a)
    ensures var r, t := s.runs[p], Effect(env, s, s.runs[p], a);
            && t.runs == s.runs && t.locks == s.locks
            && SameBut(s.pool, t.pool, r.base)
            && PoolInv(env, t.pool)
            && (Published(s.pool, r.base) ==> t.pool == s.pool)
            && (!r.pc.Marking? ==> (Published(s.pool, r.base) <==> Published(t.pool, r.base)))
            && (r.pc.Marking? ==> Published(t.pool, r.base))
            && SameElsewhere(s, t, r.home)
            && (r.pc.Downloading? || r.pc.Creating? ==> Cached(env, t, r))
            && (r.pc.Uploading? && a.ok ==> Complete(env, t.pool, r.base))
  {
    var r := s.runs[p];
    var t := Effect(env, s, r, a);
    assert PcInv(env, s, r);
    MarkersDistinct(r.base, r.base);
    forall b | IsBase(b) && Published(t.pool, b) ensures Complete(env, t.pool, b) {
      MarkersDistinct(b, r.base);
      MarkersDistinct(r.base, b);
      if b != r.base {
        assert Published(s.pool, b);
      }
    }
    forall v | v in t.pool.disk && t.pool.disk[v].backing.Some?
      ensures IsBase(t.pool.disk[v].backing.value) && Published(t.pool, t.pool.disk[v].backing.value)
    {
      EffectKeepsBacking(env, s, p, a, v);
    }
  }

  lemma IssueKeepsInv(env: Env, s: Sys, p: nat, a: Answer)
    requires Inv(env, s) && p in s.runs && Holding(s.runs[p].pc)
    ensures Inv(env, Issue(env, s, p, a))
  {
    var r := s.runs[p];
    assert HoldsLock(s, p) && PcInv(env, s, r);
    if Possible(env, s, r, a) { EffectStaysHome(env, s, p, a); }
    HolderStep(env, s, p, Issue(env, s, p, a));
  }

  lemma DieKeepsInv(env: Env, s: Sys, p: nat, a: Answer)
    requires Inv(env, s) && p in s.runs
    ensures Inv(env, Die(env, s, p, a))
  {
    var r := s.runs[p];
    assert HoldsLock(s, p) && PcInv(env, s, r);
    var cut := a.(ok := false);
    if Holding(r.pc) {
      if Possible(env, s, r, cut) { EffectStaysHome(env, s, p, cut); }
      HolderStep(env, s, p, Die(env, s, p, a));
    } else {
      QuietStep(env, s, p, Die(env, s, p, a));
    }
  }

  /** A run outside the critical section moves: only its own point changes, or a lock is
      taken or dropped that nobody else holds. */
  lemma QuietStep(env: Env, s: Sys, p: nat, t: Sys)
    requires Inv(env, s) && p in s.runs
    requires p in t.runs && t.runs == s.runs[p := s.runs[p].(pc := t.runs[p].pc)]
    requires t.pool == s.pool && t.cache == s.cache
    requires forall h :: h in s.locks && s.locks[h] != p ==> h in t.locks && t.locks[h] == s.locks[h]
    requires HoldsLock(t, p) && PcInv(env, t, t.runs[p])
    ensures Inv(env, t)
  {
    forall q | q in t.runs && q != p ensures HoldsLock(t, q) && PcInv(env, t, t.runs[q]) {
      assert HoldsLock(s, q) && PcInv(env, s, s.runs[q]);
    }
  }

  lemma ChunkKeepsInv(env: Env, s: Sys, p: nat, n: nat)
    requires Inv(env, s) && p in s.runs
    ensures Inv(env, Perform(env, s, p, Chunk(n)))
  {
    var r := s.runs[p];
    assert HoldsLock(s, p) && PcInv(env, s, r);
    var cut := Answer(false, true, [], n);
    if r.pc.Uploading? && Possible(env, s, r, cut) {
      EffectStaysHome(env, s, p, cut);
      HolderStep(env, s, p, Perform(env, s, p, Chunk(n)));
    }
  }

  /** Files a run's VMs own are outside the base prefix. */
  lemma OwnFilesNotShared(r: RunState, i: nat)
    requires LegalId(r.id)
    ensures !(BASE_PREFIX <= OverlayName(r.id, i)) && !(BASE_PREFIX <= ConsoleName(r.id, i))
  {
    OwnNamesMatched(r.id, OverlayName(r.id, i));
    OwnNamesMatched(r.id, ConsoleName(r.id, i));
    OwnVolumesAreNotBase(r.id, OverlayName(r.id, i));
    OwnVolumesAreNotBase(r.id, ConsoleName(r.id, i));
  }

  /** A new file outside the base prefix, with no backing or a published one. */
  lemma FileKeepsInv(env: Env, s: Sys, pool: Pool, name: string, v: Volume)
    requires Inv(env, s) && !(BASE_PREFIX <= name)
    requires pool.disk == s.pool.disk[name := v]
    requires pool.listed == s.pool.listed || pool.listed == s.pool.listed + {name}
    requires v.backing.Some? ==> IsBase(v.backing.value) && Published(s.pool, v.backing.value)
    ensures Inv(env, s.(pool := pool))
  {
    forall w | w in pool.disk && pool.disk[w].backing.Some?
      ensures IsBase(pool.disk[w].backing.value) && Published(s.pool, pool.disk[w].backing.value)
    {
      assert w == name || w in s.pool.disk;
    }
    UnsharedStep(env, s, pool);
  }

  lemma OverlayKeepsInv(env: Env, s: Sys, p: nat, i: nat)
    requires Inv(env, s) && p in s.runs
    ensures Inv(env, s.(pool := WithOverlay(s.pool, s.runs[p], i)))
  {
    var r, pool := s.runs[p], WithOverlay(s.pool, s.runs[p], i);
    if pool == s.pool {
      assert s.(pool := pool) == s;
    } else {
      ReadyIsPublished(env, s, p);
      OwnFilesNotShared(r, i);
      FileKeepsInv(env, s, pool, OverlayName(r.id, i), Volume([], Some(r.base)));
    }
  }

  lemma ReadyIsPublished(env: Env, s: Sys, p: nat)
    requires Inv(env, s) && p in s.runs && s.runs[p].pc.Ready?
    ensures IsBase(s.runs[p].base) && Published(s.pool, s.runs[p].base)
  {
    assert PcInv(env, s, s.runs[p]);
  }

  lemma ConsoleKeepsInv(env: Env, s: Sys, p: nat, i: nat, data: Bytes)
    requires Inv(env, s) && p in s.runs
    ensures Inv(env, s.(pool := WithConsole(s.pool, s.runs[p], i, data)))
  {
    var r := s.runs[p];
    OwnFilesNotShared(r, i);
    FileKeepsInv(env, s, WithConsole(s.pool, r, i, data), ConsoleName(r.id, i), Volume(data, None));
  }

  lemma PerformKeepsInv(env: Env, s: Sys, p: nat, act: Act)
    requires Inv(env, s) && p in s.runs
    ensures Inv(env, Perform(env, s, p, act))
  {
    match act
    case Crash(a) => DieKeepsInv(env, s, p, a);
    case Command(a) => if Holding(s.runs[p].pc) { IssueKeepsInv(env, s, p, a); }
    case Chunk(n) => ChunkKeepsInv(env, s, p, n);
    case AddOverlay(i) => OverlayKeepsInv(env, s, p, i);
    case Console(i, data) => ConsoleKeepsInv(env, s, p, i, data);
    case _ =>
      assert HoldsLock(s, p) && PcInv(env, s, s.runs[p]);
      QuietStep(env, s, p, Perform(env, s, p, act));
  }

  lemma NextKeepsInv(env: Env, s: Sys, step: Step)
    requires Inv(env, s)
    ensures Inv(env, Next(env, s, step))
  {
    match step
    case OfRun(p, act) => if p in s.runs { PerformKeepsInv(env, s, p, act); }
    case Refresh => UnsharedStep(env, s, s.pool.Refresh());
    case Remove(v) => UnsharedStep(env, s, Next(env, s, step).pool);
  }

  lemma {:induction false} RunKeepsInv(env: Env, s: Sys, steps: seq<Step>)
    requires Inv(env, s)
    ensures Inv(env, Run(env, s, steps))
    decreases |steps|
  {
    if steps != [] {
      NextKeepsInv(env, s, steps[0]);
      RunKeepsInv(env, Next(env, s, steps[0]), steps[1..]);
    }
  }

  lemma InitHolds(env: Env, s: Sys)
    requires Init(env, s) && OneLockPerImage(s)
    ensures Inv(env, s)
  {
    forall p | p in s.runs ensures HoldsLock(s, p) && PcInv(env, s, s.runs[p]) {}
  }

  // --- main results -----------------------------------------------------------

  /** In every reachable state a volume beside its marker is the whole pinned image, and every
      overlay has its backing volume, published and whole. */
  lemma EveryStateSound(env: Env, s: Sys, steps: seq<Step>)
    requires Init(env, s) && OneLockPerImage(s)
    ensures Sound(env, Run(env, s, steps).pool)
    ensures Backed(env, Run(env, s, steps).pool)
  {
    InitHolds(env, s);
    RunKeepsInv(env, s, steps);
  }

  /** What ensure_base_image returns may be booted from: while a run is past it, its base
      volume is published and whole, whatever the others do. */
  lemma ReadyMeansBootable(env: Env, s: Sys, steps: seq<Step>, p: nat)
    requires Init(env, s) && OneLockPerImage(s)
    requires var t := Run(env, s, steps); p in t.runs && t.runs[p].pc.Ready?
    ensures var t := Run(env, s, steps);
            Published(t.pool, t.runs[p].base) && Complete(env, t.pool, t.runs[p].base)
  {
    InitHolds(env, s);
    RunKeepsInv(env, s, steps);
    var t := Run(env, s, steps);
    assert PcInv(env, t, t.runs[p]);
  }

  ghost predicate Untouched(p: Pool, q: Pool, b: string) {
    Published(p, b) && Published(q, b) && b in p.disk && b in q.disk && p.disk[b] == q.disk[b]
  }

  lemma EffectSparesPublished(env: Env, s: Sys, p: nat, a: Answer, b: string)
    requires Inv(env, s) && p in s.runs && Holding(s.runs[p].pc) && Possible(env, s, s.runs[p], a)
    requires IsBase(b) && Published(s.pool, b)
    ensures Untouched(s.pool, Effect(env, s, s.runs[p], a).pool, b)
  {
    var r := s.runs[p];
    assert Complete(env, s.pool, b);
    if !r.pc.Listing? {
      EffectStaysHome(env, s, p, a);
      assert PcInv(env, s, r);
      assert b != r.base;
      MarkersDistinct(b, r.base);
      MarkersDistinct(r.base, b);
    }
  }

  /** How the pending command ends, when an act is the whole or a part of it. */
  function Ending(act: Act): Answer
    requires act.Command? || act.Crash? || act.Chunk?
  {
    match act
    case Command(a) => a
    case Crash(a) => a.(ok := false)
    case Chunk(n) => Answer(false, true, [], n)
  }

  /** All that a command does is its effect; it moves its run on, which keeps or drops its lock. */
  lemma IssueByEffect(env: Env, s: Sys, p: nat, a: Answer)
    requires p in s.runs && Holding(s.runs[p].pc)
    ensures var r, t := s.runs[p], Issue(env, s, p, a);
            && p in t.runs && t.runs == s.runs[p := r.(pc := t.runs[p].pc)]
            && t.locks == (if Holding(t.runs[p].pc) then s.locks else Unlock(s, p).locks)
            && (t.pool == s.pool || (Possible(env, s, r, a) && t.pool == Effect(env, s, r, a).pool))
  {
    var r := s.runs[p];
    if Possible(env, s, r, a) {
      var t := Effect(env, s, r, a);
      assert t.runs == s.runs && t.locks == s.locks;
      assert Unlock(t, p).locks == Unlock(s, p).locks;
    }
  }

  lemma DieByEffect(env: Env, s: Sys, p: nat, a: Answer)
    requires p in s.runs
    ensures var r, cut, t := s.runs[p], a.(ok := false), Die(env, s, p, a);
            && t.runs == s.runs[p := r.(pc := Idle)] && t.locks == Unlock(s, p).locks
            && (t.pool == s.pool || (a.happened && Possible(env, s, r, cut) && t.pool == Effect(env, s, r, cut).pool))
  {
    var r, cut := s.runs[p], a.(ok := false);
    if Possible(env, s, r, cut) {
      var t := Effect(env, s, r, cut);
      assert t.runs == s.runs && t.locks == s.locks;
    }
  }

  /** All that such an act does to the pool is the effect of the pending command. */
  lemma ActsByEffect(env: Env, s: Sys, p: nat, act: Act)
    requires p in s.runs && (act.Command? || act.Crash? || act.Chunk?)
    ensures var r, pool := s.runs[p], Perform(env, s, p, act).pool;
            pool == s.pool || (Holding(r.pc) && Possible(env, s, r, Ending(act)) && pool == Effect(env, s, r, Ending(act)).pool)
  {
    match act
    case Command(a) => if Holding(s.runs[p].pc) { IssueByEffect(env, s, p, a); }
    case Crash(a) => DieByEffect(env, s, p, a);
    case Chunk(_) =>
  }

  /** What goes on in the pool beside the commands: any part of an upload shows before it is
      over, a run that is ready adds overlays on its base, and QEMU writes console logs. */
  lemma PoolChangesMeanwhile(env: Env, s: Sys, p: nat, i: nat, data: Bytes)
    requires p in s.runs
    ensures var r := s.runs[p];
            r.pc.Uploading? && r.base in s.pool.listed && r.base in s.pool.disk && CacheKey(env, r) in s.cache
              && i <= |s.cache[CacheKey(env, r)]| ==>
              var t := Perform(env, s, p, Chunk(i));
              r.base in t.pool.disk && t.pool.disk[r.base].data == s.cache[CacheKey(env, r)][..i]
    ensures var r := s.runs[p];
            r.pc.Ready? && r.base in s.pool.listed && OverlayName(r.id, i) !in s.pool.disk ==>
              var t := Perform(env, s, p, AddOverlay(i));
              OverlayName(r.id, i) in t.pool.disk && t.pool.disk[OverlayName(r.id, i)].backing == Some(r.base)
    ensures var r, t := s.runs[p], Perform(env, s, p, Console(i, data));
            && ConsoleName(r.id, i) in t.pool.disk && t.pool.disk[ConsoleName(r.id, i)].data == data
            && t.pool.listed == s.pool.listed
  {
    var r := s.runs[p];
    if r.pc.Uploading? && CacheKey(env, r) in s.cache && i <= |s.cache[CacheKey(env, r)]| {
      assert Cut(s.cache[CacheKey(env, r)], i) == s.cache[CacheKey(env, r)][..i];
    }
  }

  /** A run whose upload failed removes what it had uploaded. */
  lemma DiscardRemoves(env: Env, s: Sys, p: nat, a: Answer)
    requires p in s.runs && s.runs[p].pc.Discarding? && s.runs[p].base in s.pool.listed && a.ok
    ensures var t := Perform(env, s, p, Command(a));
            && s.runs[p].base !in t.pool.disk && s.runs[p].base !in t.pool.listed
            && t.runs[p].pc == Idle
  {
  }

  /** A run that dies in mid-upload may leave any part of the image, from none of it to all. */
  lemma AnyPartMayBeLeft(env: Env, s: Sys, p: nat, n: nat)
    requires p in s.runs && s.runs[p].pc.Uploading?
    requires s.runs[p].base in s.pool.listed && s.runs[p].base in s.pool.disk
    requires CacheKey(env, s.runs[p]) in s.cache && n <= |s.cache[CacheKey(env, s.runs[p])]|
    ensures exists a :: var t := Perform(env, s, p, Crash(a));
              && t.runs[p].pc == Idle
              && s.runs[p].base in t.pool.disk
              && t.pool.disk[s.runs[p].base].data == s.cache[CacheKey(env, s.runs[p])][..n]
  {
    var t := Perform(env, s, p, Crash(Answer(false, true, [], n)));
    assert t.pool.disk[s.runs[p].base].data == Cut(s.cache[CacheKey(env, s.runs[p])], n);
  }

  lemma ActSparesPublished(env: Env, s: Sys, p: nat, act: Act, b: string)
    requires Inv(env, s) && p in s.runs && IsBase(b) && Published(s.pool, b)
    ensures Untouched(s.pool, Perform(env, s, p, act).pool, b)
  {
    var r := s.runs[p];
    assert Untouched(s.pool, s.pool, b) by { assert Complete(env, s.pool, b); }
    match act
    case AddOverlay(i) => OwnFilesNotShared(r, i); MarkersDistinct(b, b);
    case Console(i, _) => OwnFilesNotShared(r, i); MarkersDistinct(b, b);
    case Enter => case Lock => case Leave =>
    case _ =>
      ActsByEffect(env, s, p, act);
      if Holding(r.pc) && Possible(env, s, r, Ending(act)) { EffectSparesPublished(env, s, p, Ending(act), b); }
  }

  lemma PublishedStaysStep(env: Env, s: Sys, step: Step, b: string)
    requires Inv(env, s) && IsBase(b) && Published(s.pool, b)
    ensures Untouched(s.pool, Next(env, s, step).pool, b)
  {
    assert Complete(env, s.pool, b);
    MarkersDistinct(b, b);
    match step
    case OfRun(p, act) => if p in s.runs { ActSparesPublished(env, s, p, act, b); }
    case _ =>
  }

  /** Once a base volume is marked, no later step of any run, teardown or sweep deletes it or
      changes one byte of it. */
  lemma {:induction false} PublishedStays(env: Env, s: Sys, steps: seq<Step>, b: string)
    requires Inv(env, s) && IsBase(b) && Published(s.pool, b)
    ensures Untouched(s.pool, Run(env, s, steps).pool, b)
    decreases |steps|
  {
    assert Complete(env, s.pool, b);
    if steps != [] {
      PublishedStaysStep(env, s, steps[0], b);
      NextKeepsInv(env, s, steps[0]);
      PublishedStays(env, Next(env, s, steps[0]), steps[1..], b);
    }
  }
}
