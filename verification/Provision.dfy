/** Provisioning of one run once the base image is ready, and its clean-up when it fails. */
module Provision {
  import opened Wrappers
  import opened Text
  import opened Names
  import opened Teardown
  import opened Hypervisor
  import opened Network

  datatype Config = Config(id: string, prefix: string, nodes: nat, keep: bool)

  datatype Node = Node(name: string, ip: string)

  function IpFor(subnet: string, i: nat): string {
    subnet + "." + Dec(10 + i)
  }

  /** From s to t only objects of the run changed. */
  ghost predicate OwnOnly(s: Hv, t: Hv, id: string) {
    && t.active == s.active
    && (forall n :: !BelongsTo(Tag(id), n) ==>
          && (n in s.domains <==> n in t.domains)
          && (n in s.nets <==> n in t.nets)
          && (n in s.nets ==> s.nets[n] == t.nets[n])
          && (n in s.pool.disk <==> n in t.pool.disk)
          && (n in s.pool.disk ==> s.pool.disk[n] == t.pool.disk[n])
          && (n in s.pool.listed <==> n in t.pool.listed))
  }

  /** The only new backing volume is the base. */
  ghost predicate BacksOnto(s: Hv, t: Hv, base: string) {
    forall v :: v in t.pool.disk && t.pool.disk[v].backing.Some? ==>
      t.pool.disk[v].backing == Some(base)
      || (v in s.pool.disk && s.pool.disk[v].backing == t.pool.disk[v].backing)
  }

  lemma OneAfterTheOther(s: Hv, t: Hv, u: Hv, id: string, base: string)
    requires OwnOnly(s, t, id) && BacksOnto(s, t, base)
    requires OwnOnly(t, u, id) && BacksOnto(t, u, base)
    ensures OwnOnly(s, u, id) && BacksOnto(s, u, base)
  {
  }

  /** Node i is up: its domain, and its overlay on the base image. */
  predicate NodeUp(s: Hv, id: string, i: nat, base: string) {
    && NodeName(id, i) in s.domains
    && OverlayName(id, i) in s.pool.disk
    && s.pool.disk[OverlayName(id, i)].backing == Some(base)
  }

  lemma NodeNamesAreOwn(id: string, i: nat, k: nat)
    ensures BelongsTo(Tag(id), NodeName(id, i)) && BelongsTo(Tag(id), OverlayName(id, i)) && BelongsTo(Tag(id), ConsoleName(id, i))
    ensures OverlayName(id, k) != ConsoleName(id, i)
  {
    OwnNamesMatched(id, NodeName(id, i));
    OwnNamesMatched(id, OverlayName(id, i));
    OwnNamesMatched(id, ConsoleName(id, i));
    var o, c := OverlayName(id, k), ConsoleName(id, i);
    assert o[|o| - 1] == '2' && c[|c| - 1] == 'g';
  }

  lemma NodeNamesDiffer(id: string, i: nat, k: nat)
    requires i != k
    ensures NodeName(id, i) != NodeName(id, k) && OverlayName(id, i) != OverlayName(id, k)
  {
    var stem := Tag(id) + HOST;
    if NodeName(id, i) == NodeName(id, k) {
      assert NodeName(id, i)[|stem|..] == Dec(i) && NodeName(id, k)[|stem|..] == Dec(k);
      DecInjective(i, k);
    }
    assert OverlayName(id, i)[..|OverlayName(id, i)| - 6] == NodeName(id, i);
    assert OverlayName(id, k)[..|OverlayName(id, k)| - 6] == NodeName(id, k);
  }

  /** Node k can be created: its base and its network are there, and nothing has its names. */
  predicate RoomFor(s: Hv, id: string, k: nat, base: string) {
    && s.active && base in s.pool.listed && Tag(id) in s.nets
    && NodeName(id, k) !in s.domains && OverlayName(id, k) !in s.pool.disk
  }

  /** `_create_vm`: an overlay on the base image, then the domain. */
  method CreateVm(hv: Hypervisor, id: string, i: nat, subnet: string, base: string) returns (r: Result<Node>)
    modifies hv`domains, hv`pool, hv`faults, hv`raised
    ensures OwnOnly(old(hv.State()), hv.State(), id) && BacksOnto(old(hv.State()), hv.State(), base)
    ensures hv.faults >= old(hv.faults)
    ensures r.Raised? ==> hv.raised == Some(r.error)
    ensures forall k: nat :: NodeUp(old(hv.State()), id, k, base) ==> NodeUp(hv.State(), id, k, base)
    ensures r.Ok? ==> NodeUp(hv.State(), id, i, base) && r.value == Node(NodeName(id, i), IpFor(subnet, i))
    ensures hv.faults == old(hv.faults) && RoomFor(old(hv.State()), id, i, base) ==> r.Ok?
    ensures forall k: nat :: k != i && RoomFor(old(hv.State()), id, k, base) ==> RoomFor(hv.State(), id, k, base)
  {
    var name := NodeName(id, i);
    forall k: nat ensures OverlayName(id, k) != ConsoleName(id, i) {
      NodeNamesAreOwn(id, i, k);
    }
    forall k: nat | k != i ensures NodeName(id, k) != name && OverlayName(id, k) != OverlayName(id, i) {
      NodeNamesDiffer(id, i, k);
    }
    NodeNamesAreOwn(id, i, i);
    var created := CreateOverlay(hv, OverlayName(id, i), base);
    if created.Failed? { return Raised(created.error); }
    var installed := VirtInstall(hv, name, OverlayName(id, i), Tag(id), ConsoleName(id, i));
    if installed.Failed? { return Raised(installed.error); }
    return Ok(Node(name, IpFor(subnet, i)));
  }

  method CreateVms(hv: Hypervisor, cfg: Config, subnet: string, base: string) returns (r: Result<seq<Node>>)
    modifies hv`domains, hv`pool, hv`faults, hv`raised
    ensures OwnOnly(old(hv.State()), hv.State(), cfg.id) && BacksOnto(old(hv.State()), hv.State(), base)
    ensures hv.faults >= old(hv.faults)
    ensures r.Raised? ==> hv.raised == Some(r.error)
    ensures r.Ok? ==> |r.value| == cfg.nodes
    ensures r.Ok? ==> forall k: nat :: k < cfg.nodes ==>
              NodeUp(hv.State(), cfg.id, k, base) && r.value[k] == Node(NodeName(cfg.id, k), IpFor(subnet, k))
    ensures hv.faults == old(hv.faults) && (forall k: nat :: k < cfg.nodes ==> RoomFor(old(hv.State()), cfg.id, k, base)) ==> r.Ok?
  {
    var nodes: seq<Node> := [];
    ghost var room := forall k: nat :: k < cfg.nodes ==> RoomFor(hv.State(), cfg.id, k, base);
    for i := 0 to cfg.nodes
      invariant OwnOnly(old(hv.State()), hv.State(), cfg.id) && BacksOnto(old(hv.State()), hv.State(), base)
      invariant hv.faults >= old(hv.faults)
      invariant |nodes| == i
      invariant forall k: nat :: k < i ==> NodeUp(hv.State(), cfg.id, k, base)
      invariant forall k: nat :: k < i ==> nodes[k] == Node(NodeName(cfg.id, k), IpFor(subnet, k))
      invariant room ==> forall k: nat :: i <= k < cfg.nodes ==> RoomFor(hv.State(), cfg.id, k, base)
    {
      var userData := Inject(hv);
      if userData.Failed? { return Raised(userData.error); }
      ghost var before := hv.State();
      var node := CreateVm(hv, cfg.id, i, subnet, base);
      OneAfterTheOther(old(hv.State()), before, hv.State(), cfg.id, base);
      if node.Raised? { return Raised(node.error); }
      nodes := nodes + [node.value];
    }
    return Ok(nodes);
  }

  /** Every node was seen with its lease, and then over SSH. */
  ghost predicate SeenUp(signs: set<Sign>, nodes: seq<Node>) {
    forall k :: 0 <= k < |nodes| ==> Leased(nodes[k].ip) in signs && Answered(nodes[k].ip) in signs
  }

  /** The waits for each VM's lease and for its sshd. */
  method AwaitVms(hv: Hypervisor, nodes: seq<Node>) returns (r: Status)
    modifies hv`faults, hv`raised, hv`signs
    ensures hv.faults >= old(hv.faults) && (r.Fine? <==> hv.faults == old(hv.faults))
    ensures r.Failed? ==> hv.raised == Some(r.error)
    ensures r.Fine? ==> SeenUp(hv.signs, nodes)
  {
    for i := 0 to |nodes|
      invariant hv.faults == old(hv.faults)
      invariant SeenUp(hv.signs, nodes[..i])
    {
      assert nodes[..i + 1] == nodes[..i] + [nodes[i]];
      r := Await(hv, Leased(nodes[i].ip));
      if r.Failed? { return; }
      r := Await(hv, Answered(nodes[i].ip));
      if r.Failed? { return; }
    }
    assert nodes[..|nodes|] == nodes;
    return Fine;
  }

  /** Nothing stands in the way of a provision: the pool and the base image are there, no object
      has one of the run's names, and there is a range to choose. */
  ghost predicate CanProvision(s: Hv, busy: set<string>, cfg: Config, base: string) {
    && s.active && base in s.pool.listed
    && (forall o :: Present(s, o) ==> !BelongsTo(Tag(cfg.id), o.name))
    && exists n: nat :: Choice(cfg.prefix, s.nets, busy, n)
  }

  lemma RoomForAll(s: Hv, t: Hv, busy: set<string>, cfg: Config, base: string)
    requires CanProvision(s, busy, cfg, base)
    requires t.domains == s.domains && t.pool == s.pool && t.active == s.active && Tag(cfg.id) in t.nets
    ensures forall k: nat :: RoomFor(t, cfg.id, k, base)
    ensures Tag(cfg.id) !in s.nets
  {
    forall k: nat ensures RoomFor(t, cfg.id, k, base) {
      NodeNamesAreOwn(cfg.id, k, k);
      assert !Present(s, Domain(NodeName(cfg.id, k))) && !Present(s, File(OverlayName(cfg.id, k)));
    }
    assert !Present(s, Net(Tag(cfg.id)));
  }

  /** The body of the `try`. It succeeds whenever nothing stands in its way and no command fails
      of itself. */
  method Build(hv: Hypervisor, cfg: Config, base: string) returns (r: Result<seq<Node>>)
    modifies hv`domains, hv`pool, hv`nets, hv`faults, hv`raised, hv`signs
    ensures OwnOnly(old(hv.State()), hv.State(), cfg.id) && BacksOnto(old(hv.State()), hv.State(), base)
    ensures hv.faults >= old(hv.faults)
    ensures r.Raised? ==> hv.raised == Some(r.error)
    ensures r.Ok? ==> Built(hv.State(), cfg, base, r.value) && SeenUp(hv.signs, r.value)
    ensures hv.faults == old(hv.faults) && CanProvision(old(hv.State()), hv.busy, cfg, base) ==> r.Ok?
  {
    ghost var s := hv.State();
    ghost var can := CanProvision(s, hv.busy, cfg, base);
    if can { assert !Present(s, Net(Tag(cfg.id))); }
    var subnet := CreateNetwork(hv, Tag(cfg.id), cfg.prefix);
    OthersKeepNets(old(hv.nets), hv.nets, Tag(cfg.id));
    if subnet.Raised? { return Raised(subnet.error); }
    if can { RoomForAll(s, hv.State(), hv.busy, cfg, base); }
    r := CreateVms(hv, cfg, subnet.value, base);
    if r.Raised? { return; }
    AddressesOnRange(subnet.value, cfg.nodes);
    var waited := AwaitVms(hv, r.value);
    if waited.Failed? { return Raised(waited.error); }
  }

  lemma OthersKeepNets(a: map<string, string>, b: map<string, string>, tag: string)
    requires a - {tag} == b - {tag}
    ensures forall n :: n != tag ==> (n in a <==> n in b) && (n in a ==> a[n] == b[n])
  {
    forall n | n != tag ensures (n in a <==> n in b) && (n in a ==> a[n] == b[n]) {
      assert n in a <==> n in a - {tag};
      assert n in b <==> n in b - {tag};
    }
  }

  /** An address of the range whose last octet is that number. */
  predicate AddressIn(range: string, ip: string, octet: nat) {
    BeforeLast(ip, '.') == range && AfterLast(ip, '.').Some? && ParseDec(AfterLast(ip, '.').value) == Some(octet)
  }

  /** The gateway has .1 and node k the tenth address after .k. */
  lemma AddressesOnRange(range: string, nodes: nat)
    ensures AddressIn(range, range + ".1", 1)
    ensures forall k: nat :: k < nodes ==> AddressIn(range, IpFor(range, k), 10 + k)
  {
    assert range + ".1" == range + ['.'] + "1";
    SplitLast(range, '.', "1");
    assert ParseDec("1") == Some(1);
    forall k: nat | k < nodes ensures AddressIn(range, IpFor(range, k), 10 + k) {
      assert IpFor(range, k) == range + ['.'] + Dec(10 + k);
      SplitLast(range, '.', Dec(10 + k));
      ParseUndoesDec(10 + k);
    }
  }

  // The range that the network's DHCP server hands out to VMs it does not know.
  const DYNAMIC_FROM := 100
  const DYNAMIC_TO := 200

  /** A node's address is never the gateway's, and is an address at all for the first 246 nodes;
      it keeps below the dynamic range exactly for the first 90. */
  lemma NodeAddressExact(range: string, k: nat, octet: nat)
    requires AddressIn(range, IpFor(range, k), octet)
    ensures IpFor(range, k) != range + ".1"
    ensures octet < 256 <==> k < 246
    ensures octet < DYNAMIC_FROM <==> k < 90
    ensures DYNAMIC_FROM <= octet <= DYNAMIC_TO <==> 90 <= k <= 190
  {
    AddressesOnRange(range, k + 1);
  }

  /** All of a run is there: the network on one range, its gateway at .1, and every node with its
      own address there. */
  ghost predicate Built(s: Hv, cfg: Config, base: string, nodes: seq<Node>) {
    && |nodes| == cfg.nodes
    && Tag(cfg.id) in s.nets
    && (exists range :: s.nets[Tag(cfg.id)] == range + ".1"
          && forall k: nat :: k < cfg.nodes ==> nodes[k].name == NodeName(cfg.id, k) && AddressIn(range, nodes[k].ip, 10 + k))
    && (forall k: nat :: k < cfg.nodes ==> NodeUp(s, cfg.id, k, base))
  }

  /** Every command of a clean-up that is not expected to fail succeeds. */
  ghost predicate AllDone(fate: Fates) {
    forall c: Cmd :: fate(c).Done?
  }

  /** Whatever had been done to the run's objects, removing them all leads to one state. */
  lemma ErasesWhatHappened(s: Hv, t: Hv, id: string)
    requires OwnOnly(s, t, id) && s.active
    requires LegalId(id)
    ensures var u, v := After(t, RunMatcher(id), Smooth()), After(s, RunMatcher(id), Smooth());
            u == v
  {
    var u, v := After(t, RunMatcher(id), Smooth()), After(s, RunMatcher(id), Smooth());
    forall n | BelongsTo(Tag(id), n) ensures !(BASE_PREFIX <= n) {
      OwnVolumesAreNotBase(id, n);
    }
    assert u.domains == v.domains;
    assert u.nets == v.nets;
    assert u.pool.disk == v.pool.disk;
  }

  /** The record of a clean-up: consoles first, then the teardown if there is one. */
  ghost predicate EvidenceFirst(before: seq<Event>, after: seq<Event>, tornDown: bool) {
    exists k :: |before| < k <= |after|
      && before + [CollectingConsoles] <= after && Quiet(before, after[..k])
      && (if tornDown then k < |after| && after[k] == TearingDown else k == |after|)
  }

  /** `provision` from the point where the base image and the pool are ready. `consoles` and
      `cleanup` are how the two parts of the clean-up go.

      It succeeds whenever nothing stands in its way and no command fails of itself. What it
      raises is what the try block raised, whatever the clean-up reports, unless a
      second interrupt ends the clean-up itself. `stopped` is the state at the end of the try
      block, in which nothing but the run's own objects had changed. A clean-up that goes
      through leaves what a smooth teardown would have left of the state before the call. */
  method ProvisionRun(hv: Hypervisor, cfg: Config, base: string, consoles: Course, cleanup: Course)
    returns (r: Result<seq<Node>>, ghost stopped: Hv)
    modifies hv`domains, hv`pool, hv`nets, hv`faults, hv`raised, hv`signs, hv`saved, hv`record
    ensures OwnOnly(old(hv.State()), stopped, cfg.id) && BacksOnto(old(hv.State()), stopped, base)
    ensures r.Ok? ==> hv.State() == stopped && Built(hv.State(), cfg, base, r.value) && SeenUp(hv.signs, r.value)
    ensures r.Ok? ==> hv.record == old(hv.record)
    ensures hv.faults == old(hv.faults) && CanProvision(old(hv.State()), hv.busy, cfg, base) ==> r.Ok?
    ensures r.Raised? ==>
              if consoles.interrupted || (!cfg.keep && cleanup.interrupted) then r.error == Interrupt
              else hv.raised == Some(r.error)
    ensures r.Raised? ==> EvidenceFirst(old(hv.record), hv.record, !consoles.interrupted && !cfg.keep)
    ensures r.Raised? ==>
              var collected := Collected(stopped, consoles.fate);
              hv.State() == if !consoles.interrupted && !cfg.keep then After(collected, RunMatcher(cfg.id), cleanup.fate) else collected
    ensures r.Raised? && !consoles.interrupted && !cfg.keep && AllDone(cleanup.fate) && hv.active && LegalId(cfg.id) ==>
              hv.State() == After(old(hv.State()), RunMatcher(cfg.id), Smooth())
  {
    ghost var s := hv.State();
    r := Build(hv, cfg, base);
    stopped := hv.State();
    if r.Raised? {
      var collected := CollectConsoles(hv, cfg.id, consoles);
      assert hv.record[..|hv.record|] == hv.record;
      if collected.Failed? { return Raised(collected.error), stopped; }
      if !cfg.keep {
        ghost var evidence := hv.record;
        var destroyed := DestroyRun(hv, cfg.id, cleanup);
        assert hv.record[..|evidence|] == evidence && hv.record[|evidence|] == TearingDown;
        if AllDone(cleanup.fate) && s.active && LegalId(cfg.id) {
          CollectingChangesNothing(stopped, consoles.fate, cfg.id, cleanup.fate);
          ErasesWhatHappened(s, stopped, cfg.id);
        }
        if destroyed.Failed? && !destroyed.error.LibvirtError? { return Raised(destroyed.error), stopped; }
      }
    }
  }

  lemma CollectingChangesNothing(s: Hv, consoles: Fates, id: string, cleanup: Fates)
    requires s.active && AllDone(cleanup)
    ensures After(Collected(s, consoles), RunMatcher(id), cleanup) == After(s, RunMatcher(id), Smooth())
  {
    var u, v := After(Collected(s, consoles), RunMatcher(id), cleanup), After(s, RunMatcher(id), Smooth());
    assert u.domains == v.domains;
    assert u.nets == v.nets;
    assert u.pool.disk == v.pool.disk;
  }

  /** When no object of the run's names existed before, that state has every object it had
      before and no other: only libvirt's listing of files it had not noticed is new. */
  lemma FailedProvisionLeavesNoTrace(s: Hv, id: string)
    requires s.active
    requires forall o :: Present(s, o) ==> !BelongsTo(Tag(id), o.name)
    ensures var t := After(s, RunMatcher(id), Smooth());
            t.domains == s.domains && t.nets == s.nets && t.pool.disk == s.pool.disk && t.pool.listed == s.pool.disk.Keys
  {
    var t := After(s, RunMatcher(id), Smooth());
    forall n | n in s.domains ensures !RunMatcher(id)(n) { assert Present(s, Domain(n)); }
    forall n | n in s.pool.disk ensures !RunMatcher(id)(n) { assert Present(s, File(n)); }
    forall n | n in s.nets ensures !RunMatcher(id)(n) { assert Present(s, Net(n)); }
    assert t.domains == s.domains;
    assert t.nets == s.nets;
    assert t.pool.disk == s.pool.disk;
  }

  /** And in any case no object of the run is left. */
  lemma FailedProvisionLeavesNothingOfTheRun(s: Hv, id: string, o: Obj)
    requires s.active && LegalId(id)
    requires Present(After(s, RunMatcher(id), Smooth()), o)
    ensures !BelongsTo(Tag(id), o.name)
  {
    TeardownExact(s, RunMatcher(id), Smooth());
    if BelongsTo(Tag(id), o.name) {
      OwnVolumesAreNotBase(id, o.name);
      assert Target(RunMatcher(id), o);
    }
  }
}
