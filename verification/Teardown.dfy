/** Teardown of everything a matcher accepts, as a function of the hypervisor's state and of
    how each command of the teardown fares. */
module Teardown {
  import opened Wrappers
  import opened Names
  import opened Storage

  /** The commands of a teardown, and the download of a console log. */
  datatype Cmd =
    | ListDomains
    | PoolList
    | PoolRefresh
    | VolList
    | NetList
    | Undefine(name: string)
    | VolDelete(name: string)
    | NetUndefine(name: string)
    | VolDownload(name: string)

  /** A command that fails may have taken effect all the same, such as one that timed out. */
  datatype Fate = Done | Refused | DoneYetFailed

  /** What libvirt holds: domains, the storage pool and whether it is active, and the networks
      with their gateway addresses. */
  datatype Hv = Hv(domains: set<string>, pool: Pool, active: bool, nets: map<string, string>)

  type Matcher = string -> bool
  type Fates = Cmd -> Fate

  predicate Fails(f: Fate) {
    !f.Done?
  }

  predicate TakesEffect(f: Fate) {
    !f.Refused?
  }

  /** Teardown deletes a volume it matches unless its name is that of a base image. */
  predicate Deletable(owns: Matcher, vol: string) {
    owns(vol) && !(BASE_PREFIX <= vol)
  }

  // --- how far it gets, and what it leaves ------------------------------------

  /** The command whose failure ends the teardown early, if there is one. A failed listing or
      refresh propagates; only removals are tolerated. */
  function Stop(active: bool, fate: Fates): Option<Cmd> {
    if Fails(fate(ListDomains)) then Some(ListDomains)
    else if Fails(fate(PoolList)) then Some(PoolList)
    else if active && Fails(fate(PoolRefresh)) then Some(PoolRefresh)
    else if active && Fails(fate(VolList)) then Some(VolList)
    else if Fails(fate(NetList)) then Some(NetList)
    else None
  }

  predicate RemovesDomains(active: bool, fate: Fates) {
    Stop(active, fate) != Some(ListDomains)
  }

  predicate RefreshesPool(active: bool, fate: Fates) {
    active && RemovesDomains(active, fate) && Stop(active, fate) != Some(PoolList) && TakesEffect(fate(PoolRefresh))
  }

  predicate RemovesVolumes(active: bool, fate: Fates) {
    active && (Stop(active, fate) == None || Stop(active, fate) == Some(NetList))
  }

  function GoneDomains(domains: set<string>, owns: Matcher, fate: Fates): set<string> {
    set d | d in domains && owns(d) && TakesEffect(fate(Undefine(d)))
  }

  function GoneVolumes(files: set<string>, owns: Matcher, fate: Fates): set<string> {
    set v | v in files && Deletable(owns, v) && TakesEffect(fate(VolDelete(v)))
  }

  function GoneNets(nets: set<string>, owns: Matcher, fate: Fates): set<string> {
    set n | n in nets && owns(n) && TakesEffect(fate(NetUndefine(n)))
  }

  function RemovedDomains(s: Hv, owns: Matcher, fate: Fates): set<string> {
    if RemovesDomains(s.active, fate) then GoneDomains(s.domains, owns, fate) else {}
  }

  function RemovedVolumes(s: Hv, owns: Matcher, fate: Fates): set<string> {
    if RemovesVolumes(s.active, fate) then GoneVolumes(s.pool.disk.Keys, owns, fate) else {}
  }

  function RemovedNets(s: Hv, owns: Matcher, fate: Fates): set<string> {
    if Stop(s.active, fate) == None then GoneNets(s.nets.Keys, owns, fate) else {}
  }

  /** What a teardown leaves. */
  function After(s: Hv, owns: Matcher, fate: Fates): Hv {
    var vols := RemovedVolumes(s, owns, fate);
    var listed := if RefreshesPool(s.active, fate) then s.pool.disk.Keys else s.pool.listed;
    Hv(
      s.domains - RemovedDomains(s, owns, fate),
      Pool(s.pool.disk - vols, listed - vols),
      s.active,
      s.nets - RemovedNets(s, owns, fate))
  }

  function FailedDomains(domains: set<string>, owns: Matcher, fate: Fates): set<Cmd> {
    set d | d in domains && owns(d) && Fails(fate(Undefine(d))) :: Undefine(d)
  }

  function FailedVolumes(files: set<string>, owns: Matcher, fate: Fates): set<Cmd> {
    set v | v in files && Deletable(owns, v) && Fails(fate(VolDelete(v))) :: VolDelete(v)
  }

  function FailedNets(nets: set<string>, owns: Matcher, fate: Fates): set<Cmd> {
    set n | n in nets && owns(n) && Fails(fate(NetUndefine(n))) :: NetUndefine(n)
  }

  /** The removals that failed, when the teardown runs to its end. */
  function Failures(s: Hv, owns: Matcher, fate: Fates): set<Cmd> {
    FailedDomains(s.domains, owns, fate)
    + (if s.active then FailedVolumes(s.pool.disk.Keys, owns, fate) else {})
    + FailedNets(s.nets.Keys, owns, fate)
  }

  /** How the call ends: normally, by the error that lists the failed removals, or early. */
  datatype Report = Clean | Incomplete(failed: set<Cmd>) | Stopped(at: Cmd)

  function ReportOf(s: Hv, owns: Matcher, fate: Fates): Report {
    match Stop(s.active, fate)
    case Some(cmd) => Stopped(cmd)
    case None =>
      var failed := Failures(s, owns, fate);
      if failed == {} then Clean else Incomplete(failed)
  }

  // --- what is left, object by object -----------------------------------------

  datatype Obj = Domain(name: string) | File(name: string) | Net(name: string)

  predicate Present(s: Hv, o: Obj) {
    match o
    case Domain(n) => n in s.domains
    case File(n) => n in s.pool.disk
    case Net(n) => n in s.nets
  }

  function Removal(o: Obj): Cmd {
    match o
    case Domain(n) => Undefine(n)
    case File(n) => VolDelete(n)
    case Net(n) => NetUndefine(n)
  }

  predicate Target(owns: Matcher, o: Obj) {
    if o.File? then Deletable(owns, o.name) else owns(o.name)
  }

  /** Survivors keep their contents: a volume its data and backing, a network its address. */
  predicate SameContents(s: Hv, t: Hv, o: Obj) {
    match o
    case Domain(_) => true
    case File(n) => n in s.pool.disk && n in t.pool.disk && s.pool.disk[n] == t.pool.disk[n]
    case Net(n) => n in s.nets && n in t.nets && s.nets[n] == t.nets[n]
  }

  // Which listings a teardown gets through. They come in this order: domains, active pools,
  // volumes if the pool is active, networks.

  predicate PoolsListed(fate: Fates) {
    fate(ListDomains).Done? && fate(PoolList).Done?
  }

  predicate VolumesListed(active: bool, fate: Fates) {
    active && PoolsListed(fate) && fate(PoolRefresh).Done? && fate(VolList).Done?
  }

  /** All listings it makes work: those of volumes are not made of an inactive pool. */
  predicate ListingsWork(active: bool, fate: Fates) {
    PoolsListed(fate) && (active ==> VolumesListed(active, fate)) && fate(NetList).Done?
  }

  /** The teardown gets to see the object. */
  predicate Listed(active: bool, fate: Fates, o: Obj) {
    match o
    case Domain(_) => fate(ListDomains).Done?
    case File(_) => VolumesListed(active, fate)
    case Net(_) => ListingsWork(active, fate)
  }

  predicate Listing(c: Cmd) {
    c.ListDomains? || c.PoolList? || c.PoolRefresh? || c.VolList? || c.NetList?
  }

  /** What is left, object by object, whatever fails and whether or not the pool is active:
      teardown removes exactly the matched objects, base images apart, that it gets to see and
      whose removal took effect, whether or not libvirt listed them before. Everything else is
      untouched. */
  lemma TeardownExact(s: Hv, owns: Matcher, fate: Fates)
    ensures var t := After(s, owns, fate);
            && (forall o :: Present(t, o) <==>
                  Present(s, o) && !(Listed(s.active, fate, o) && Target(owns, o) && TakesEffect(fate(Removal(o)))))
            && (forall o :: Present(t, o) ==> SameContents(s, t, o))
            && t.active == s.active
            && t.pool.listed == if s.active && PoolsListed(fate) && TakesEffect(fate(PoolRefresh)) then t.pool.disk.Keys else s.pool.listed
    ensures !s.active ==> After(s, owns, fate).pool == s.pool
  {
    if !s.active {
      assert s.pool.disk - {} == s.pool.disk && s.pool.listed - {} == s.pool.listed;
    }
  }

  /** What it reports: nothing exactly when all its listings worked and no removal failed; when
      they worked, each removal that failed; otherwise the listing that ended it. */
  lemma ReportExact(s: Hv, owns: Matcher, fate: Fates)
    ensures ReportOf(s, owns, fate) == Clean
            <==> ListingsWork(s.active, fate)
                 && forall o :: Present(s, o) && Listed(s.active, fate, o) && Target(owns, o) ==> !Fails(fate(Removal(o)))
    ensures ReportOf(s, owns, fate).Incomplete? ==>
              && ListingsWork(s.active, fate)
              && ReportOf(s, owns, fate).failed
                 == set o | o in Objects(s) && Listed(s.active, fate, o) && Target(owns, o) && Fails(fate(Removal(o))) :: Removal(o)
    ensures ReportOf(s, owns, fate).Stopped? <==> !ListingsWork(s.active, fate)
    ensures ReportOf(s, owns, fate).Stopped? ==>
              var at := ReportOf(s, owns, fate).at;
              && Listing(at) && Fails(fate(at))
              && (!at.ListDomains? ==> fate(ListDomains).Done?)
              && (at.PoolRefresh? || at.VolList? || at.NetList? ==> PoolsListed(fate))
              && (at.VolList? ==> fate(PoolRefresh).Done?)
              && (at.NetList? && s.active ==> VolumesListed(s.active, fate))
  {
    var failed := Failures(s, owns, fate);
    if ListingsWork(s.active, fate) {
      var byObject := set o | o in Objects(s) && Listed(s.active, fate, o) && Target(owns, o) && Fails(fate(Removal(o))) :: Removal(o);
      forall o | Present(s, o) && Listed(s.active, fate, o) && Target(owns, o) && Fails(fate(Removal(o))) ensures Removal(o) in failed {}
      forall c | c in failed ensures c in byObject {
        var o := if c.Undefine? then Domain(c.name) else if c.VolDelete? then File(c.name) else Net(c.name);
        assert Present(s, o) && Removal(o) == c;
      }
      assert failed == byObject;
    }
  }

  function Objects(s: Hv): (objects: set<Obj>)
    ensures forall o :: o in objects <==> Present(s, o)
  {
    (set d | d in s.domains :: Domain(d)) + (set f | f in s.pool.disk :: File(f)) + (set n | n in s.nets :: Net(n))
  }

  // --- convergence ------------------------------------------------------------

  function RunMatcher(id: string): Matcher {
    name => BelongsTo(Tag(id), name)
  }

  function SweepMatcher(): Matcher {
    name => Swept(name)
  }

  /** Nothing fails. */
  function Smooth(): Fates {
    cmd => Done
  }

  /** A second teardown after a smooth one changes nothing and, as long as its own listings
      work, reports nothing: there is nothing left for any removal to fail on. */
  lemma Idempotent(s: Hv, owns: Matcher, fate: Fates)
    requires ListingsWork(s.active, fate)
    ensures var t := After(s, owns, Smooth());
            After(t, owns, fate) == t && ReportOf(t, owns, fate) == Clean
  {
    var t := After(s, owns, Smooth());
    TeardownExact(s, owns, Smooth());
    ReportExact(t, owns, fate);
    var u := After(t, owns, fate);
    assert u.domains == t.domains;
    assert u.nets == t.nets;
    assert u.pool.disk == t.pool.disk;
  }

  /** Teardowns of isolated runs commute, whatever fails in either, and neither changes what
      the other reports. */
  lemma IsolatedTeardownsCommute(s: Hv, q: string, r: string, f: Fates, g: Fates)
    requires Isolated(q, r)
    ensures After(After(s, RunMatcher(q), f), RunMatcher(r), g) == After(After(s, RunMatcher(r), g), RunMatcher(q), f)
    ensures ReportOf(After(s, RunMatcher(q), f), RunMatcher(r), g) == ReportOf(s, RunMatcher(r), g)
  {
    forall n ensures !(RunMatcher(q)(n) && RunMatcher(r)(n)) {
      MatchersDisjoint(q, r, n);
    }
    DisjointTeardownsCommute(s, RunMatcher(q), RunMatcher(r), f, g);
    DisjointGone(s, RunMatcher(q), RunMatcher(r), f, g);
  }

  lemma DisjointTeardownsCommute(s: Hv, m: Matcher, n: Matcher, f: Fates, g: Fates)
    requires forall name :: !(m(name) && n(name))
    ensures After(After(s, m, f), n, g) == After(After(s, n, g), m, f)
  {
    TwoTeardowns(s, m, n, f, g);
    TwoTeardowns(s, n, m, g, f);
    assert RemovedNets(s, m, f) + RemovedNets(s, n, g) == RemovedNets(s, n, g) + RemovedNets(s, m, f);
    assert RemovedVolumes(s, m, f) + RemovedVolumes(s, n, g) == RemovedVolumes(s, n, g) + RemovedVolumes(s, m, f);
  }

  /** A teardown removes, and fails on, the same objects after one that matches none of them. */
  lemma DisjointGone(s: Hv, m: Matcher, n: Matcher, f: Fates, g: Fates)
    requires forall name :: !(m(name) && n(name))
    ensures var t := After(s, m, f);
            && RemovedDomains(t, n, g) == RemovedDomains(s, n, g)
            && RemovedVolumes(t, n, g) == RemovedVolumes(s, n, g)
            && RemovedNets(t, n, g) == RemovedNets(s, n, g)
            && ReportOf(t, n, g) == ReportOf(s, n, g)
  {
    var t := After(s, m, f);
    assert GoneDomains(t.domains, n, g) == GoneDomains(s.domains, n, g);
    assert GoneVolumes(t.pool.disk.Keys, n, g) == GoneVolumes(s.pool.disk.Keys, n, g);
    assert GoneNets(t.nets.Keys, n, g) == GoneNets(s.nets.Keys, n, g);
    assert Failures(t, n, g) == Failures(s, n, g);
  }

  lemma TwoTeardowns(s: Hv, m: Matcher, n: Matcher, f: Fates, g: Fates)
    requires forall name :: !(m(name) && n(name))
    ensures var u := After(After(s, m, f), n, g);
            && u.active == s.active
            && u.domains == s.domains - RemovedDomains(s, m, f) - RemovedDomains(s, n, g)
            && u.nets == s.nets - (RemovedNets(s, m, f) + RemovedNets(s, n, g))
            && u.pool.disk == s.pool.disk - (RemovedVolumes(s, m, f) + RemovedVolumes(s, n, g))
            && u.pool.listed == (if RefreshesPool(s.active, f) || RefreshesPool(s.active, g) then s.pool.disk.Keys else s.pool.listed)
                                - RemovedVolumes(s, m, f) - RemovedVolumes(s, n, g)
  {
    DisjointGone(s, m, n, f, g);
  }

  /** A sweep makes up for any teardown of a run before it, however badly that one went. */
  lemma SweepAbsorbs(s: Hv, id: string, fate: Fates)
    ensures After(After(s, RunMatcher(id), fate), SweepMatcher(), Smooth()) == After(s, SweepMatcher(), Smooth())
  {
    forall n | RunMatcher(id)(n) ensures SweepMatcher()(n) {
      MatchedIsSwept(id, n);
    }
    WiderAbsorbs(s, RunMatcher(id), SweepMatcher(), fate);
    WiderAbsorbsPool(s, RunMatcher(id), SweepMatcher(), fate);
  }

  lemma WiderAbsorbs(s: Hv, m: Matcher, n: Matcher, fate: Fates)
    requires forall name :: m(name) ==> n(name)
    ensures var a, b := After(After(s, m, fate), n, Smooth()), After(s, n, Smooth());
            a.domains == b.domains && a.nets == b.nets && a.active == b.active
  {
    var a, b := After(After(s, m, fate), n, Smooth()), After(s, n, Smooth());
    assert a.domains == b.domains;
    assert a.nets == b.nets;
  }

  lemma WiderAbsorbsPool(s: Hv, m: Matcher, n: Matcher, fate: Fates)
    requires forall name :: m(name) ==> n(name)
    ensures After(After(s, m, fate), n, Smooth()).pool == After(s, n, Smooth()).pool
  {
    var a, b := After(After(s, m, fate), n, Smooth()), After(s, n, Smooth());
    assert a.pool.disk == b.pool.disk;
    assert a.pool.listed == b.pool.listed;
  }

  /** A smooth sweep, of whatever state crashed runs and failed teardowns have left behind,
      leaves exactly the base images and the objects outside the prefix, and of an inactive
      pool every file. */
  lemma SweepConverges(s: Hv, history: seq<(string, Fates)>)
    ensures var t := After(AfterAll(s, history), SweepMatcher(), Smooth());
            && t == After(s, SweepMatcher(), Smooth())
            && (forall o :: Present(t, o) <==>
                  Present(s, o) && (!(PREFIX <= o.name) || (o.File? && (!s.active || BASE_PREFIX <= o.name))))
            && (forall o :: Present(t, o) ==> SameContents(s, t, o))
  {
    SweepAbsorbsAll(s, history);
    TeardownExact(s, SweepMatcher(), Smooth());
  }

  function AfterAll(s: Hv, history: seq<(string, Fates)>): Hv
    decreases |history|
  {
    if history == [] then s
    else AfterAll(After(s, RunMatcher(history[0].0), history[0].1), history[1..])
  }

  lemma {:induction false} SweepAbsorbsAll(s: Hv, history: seq<(string, Fates)>)
    ensures After(AfterAll(s, history), SweepMatcher(), Smooth()) == After(s, SweepMatcher(), Smooth())
    decreases |history|
  {
    if history != [] {
      SweepAbsorbs(s, history[0].0, history[0].1);
      SweepAbsorbsAll(After(s, RunMatcher(history[0].0), history[0].1), history[1..]);
    }
  }
}
