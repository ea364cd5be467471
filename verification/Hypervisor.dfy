/** The libvirt host as an object that virsh commands change, and the teardown and diagnostics
    that run on it. */
module Hypervisor {
  import opened Wrappers
  import opened Text
  import opened Names
  import opened Storage
  import opened Teardown

  /** `errors` reports each command of `failed` once and nothing else. */
  ghost predicate Reports(errors: seq<Cmd>, failed: set<Cmd>) {
    && (forall c :: c in errors <==> c in failed)
    && (forall i, j :: 0 <= i < j < |errors| ==> errors[i] != errors[j])
  }

  lemma ReportsJoin(a: seq<Cmd>, failedA: set<Cmd>, b: seq<Cmd>, failedB: set<Cmd>)
    requires Reports(a, failedA) && Reports(b, failedB) && failedA !! failedB
    ensures Reports(a + b, failedA + failedB)
  {
    forall c ensures c in a + b <==> c in failedA + failedB {
      assert c in a + b <==> c in a || c in b;
    }
    forall i, j | 0 <= i < j < |a + b| ensures (a + b)[i] != (a + b)[j] {
      if i < |a| <= j {
        assert (a + b)[i] in failedA && (a + b)[j] == b[j - |a|] && b[j - |a|] in failedB;
      }
    }
  }

  /** A VM's address was seen among the leases, or its sshd answered. */
  datatype Sign = Leased(ip: string) | Answered(ip: string)

  /** What leaves a mark on the record of a run, in the order it happens. */
  datatype Event = Yielded | CollectingLogs | CollectingConsoles | TearingDown | Ran(cmd: Cmd)

  /** A removal, or the start of a teardown. */
  predicate Removes(e: Event) {
    e.TearingDown? || (e.Ran? && (e.cmd.Undefine? || e.cmd.VolDelete? || e.cmd.NetUndefine?))
  }

  /** The record went on, without a removal. */
  predicate Quiet(before: seq<Event>, after: seq<Event>) {
    before <= after && forall k :: |before| <= k < |after| ==> !Removes(after[k])
  }

  class Hypervisor {
    var domains: set<string>
    var pool: Pool
    var active: bool
    var nets: map<string, string>
    var busy: set<string>                       // /24s in use that libvirt does not list
    var faults: nat                             // commands that failed for no reason of the state
    var saved: map<(string, string), Volume>    // artifacts: (run id, file) to contents
    ghost var raised: Option<Exn>               // the last exception raised while provisioning
    ghost var record: seq<Event>
    ghost var signs: set<Sign>                  // what was seen of the VMs

    constructor (s: Hv, busy: set<string>)
      ensures State() == s && this.busy == busy && faults == 0 && saved == map[]
      ensures raised == None && record == [] && signs == {}
    {
      domains, pool, active, nets := s.domains, s.pool, s.active, s.nets;
      this.busy, faults, saved := busy, 0, map[];
      raised, record, signs := None, [], {};
    }

    /** A command fails, or a `raise` statement is reached. */
    method Raise(e: Exn) returns (r: Status)
      modifies `raised
      ensures r == Failed(e) && raised == Some(e)
    {
      raised := Some(e);
      return Failed(e);
    }

    method Note(e: Event)
      modifies `record
      ensures record == old(record) + [e]
    {
      record := record + [e];
    }

    function State(): Hv
      reads this
    {
      Hv(domains, pool, active, nets)
    }

    method Undefine(name: string, f: Fate)
      modifies `domains, `record
      ensures domains == if TakesEffect(f) then old(domains) - {name} else old(domains)
      ensures record == old(record) + [Ran(Cmd.Undefine(name))]
    {
      record := record + [Ran(Cmd.Undefine(name))];
      if TakesEffect(f) { domains := domains - {name}; }
    }

    method VolDelete(name: string, f: Fate)
      modifies `pool, `record
      ensures pool == if TakesEffect(f) then old(pool).Delete(name) else old(pool)
      ensures record == old(record) + [Ran(Cmd.VolDelete(name))]
    {
      record := record + [Ran(Cmd.VolDelete(name))];
      if TakesEffect(f) { pool := pool.Delete(name); }
    }

    method NetUndefine(name: string, f: Fate)
      modifies `nets, `record
      ensures nets == if TakesEffect(f) then old(nets) - {name} else old(nets)
      ensures record == old(record) + [Ran(Cmd.NetUndefine(name))]
    {
      record := record + [Ran(Cmd.NetUndefine(name))];
      if TakesEffect(f) { nets := nets - {name}; }
    }

    method PoolRefresh(f: Fate)
      modifies `pool
      ensures pool == if TakesEffect(f) then old(pool).Refresh() else old(pool)
    {
      if TakesEffect(f) { pool := pool.Refresh(); }
    }
  }

  // --- commands of a provision, any of which may fail or be interrupted ---------

  method Perhaps() returns (b: bool) {
    if * { return true; } else { return false; }
  }

  /** A command about to run may be hit by a fault of its own: an error or an interrupt. */
  method Inject(hv: Hypervisor) returns (fault: Status)
    modifies hv`faults, hv`raised
    ensures fault.Fine? ==> hv.faults == old(hv.faults)
    ensures fault.Failed? ==> hv.faults > old(hv.faults) && hv.raised == Some(fault.error)
  {
    var hit := Perhaps();
    if !hit { return Fine; }
    hv.faults := hv.faults + 1;
    var interrupt := Perhaps();
    fault := hv.Raise(if interrupt then Interrupt else LibvirtError("command failed"));
  }

  /** A wait for a sign of a VM, which may time out or be interrupted. */
  method Await(hv: Hypervisor, sign: Sign) returns (r: Status)
    modifies hv`faults, hv`raised, hv`signs
    ensures r.Fine? ==> hv.faults == old(hv.faults) && hv.signs == old(hv.signs) + {sign}
    ensures r.Failed? ==> hv.faults > old(hv.faults) && hv.raised == Some(r.error) && hv.signs == old(hv.signs)
  {
    r := Inject(hv);
    if r.Fine? { hv.signs := hv.signs + {sign}; }
  }

  /** net-define: adds or redefines the network. When it fails it may have done so anyway. */
  method NetDefine(hv: Hypervisor, name: string, gateway: string) returns (r: Status)
    modifies hv`nets, hv`faults, hv`raised
    ensures r.Failed? ==> hv.raised == Some(r.error)
    ensures r.Fine? ==> hv.nets == old(hv.nets)[name := gateway] && hv.faults == old(hv.faults)
    ensures r.Failed? ==> hv.faults > old(hv.faults) && (hv.nets == old(hv.nets) || hv.nets == old(hv.nets)[name := gateway])
  {
    r := Inject(hv);
    var anyway := Perhaps();
    if r.Fine? || anyway { hv.nets := hv.nets[name := gateway]; }
  }

  /** The first three octets of a network's address. */
  function RangeOf(gateway: string): string {
    BeforeLast(gateway, '.')
  }

  /** net-start: refused while something libvirt does not list uses the range. */
  method NetStart(hv: Hypervisor, name: string) returns (r: Status)
    modifies hv`faults, hv`raised
    ensures r.Failed? ==> hv.raised == Some(r.error)
    ensures r.Fine? ==> hv.faults == old(hv.faults) && name in hv.nets && RangeOf(hv.nets[name]) !in hv.busy
    ensures r.Failed? && hv.faults == old(hv.faults) ==>
              r.error.LibvirtError? && (name !in hv.nets || RangeOf(hv.nets[name]) in hv.busy)
    ensures hv.faults >= old(hv.faults)
  {
    if name !in hv.nets || RangeOf(hv.nets[name]) in hv.busy {
      r := hv.Raise(LibvirtError("Address already in use"));
      return;
    }
    r := Inject(hv);
  }

  method NetUndefineOrFail(hv: Hypervisor, name: string) returns (r: Status)
    requires name in hv.nets
    modifies hv`nets, hv`faults, hv`raised
    ensures r.Failed? ==> hv.raised == Some(r.error)
    ensures r.Fine? ==> hv.nets == old(hv.nets) - {name} && hv.faults == old(hv.faults)
    ensures r.Failed? ==> hv.faults > old(hv.faults) && (hv.nets == old(hv.nets) || hv.nets == old(hv.nets) - {name})
  {
    r := Inject(hv);
    var anyway := Perhaps();
    if r.Fine? || anyway { hv.nets := hv.nets - {name}; }
  }

  /** vol-create-as with a backing volume. */
  method CreateOverlay(hv: Hypervisor, name: string, base: string) returns (r: Status)
    modifies hv`pool, hv`faults, hv`raised
    ensures hv.faults >= old(hv.faults)
    ensures r.Failed? ==> hv.raised == Some(r.error)
    ensures hv.faults == old(hv.faults) && hv.active && name !in old(hv.pool).disk && base in old(hv.pool).listed ==> r.Fine?
    ensures r.Fine? ==> hv.active && name !in old(hv.pool).disk && base in old(hv.pool).listed
                        && hv.pool == old(hv.pool).Create(name, Volume([], Some(base)))
    ensures r.Failed? && hv.pool != old(hv.pool) ==>
              name !in old(hv.pool).disk && hv.pool == old(hv.pool).Create(name, Volume([], Some(base)))
  {
    if !hv.active || name in hv.pool.disk || base !in hv.pool.listed {
      r := hv.Raise(LibvirtError("cannot create volume"));
      return;
    }
    r := Inject(hv);
    var anyway := Perhaps();
    if r.Fine? || anyway { hv.pool := hv.pool.Create(name, Volume([], Some(base))); }
  }

  /** virt-install: defines and starts the domain, whose QEMU process writes its console log
      into the pool's directory without libvirt knowing. A failure leaves any part of that. */
  method VirtInstall(hv: Hypervisor, name: string, overlay: string, net: string, console: string) returns (r: Status)
    modifies hv`domains, hv`pool, hv`faults, hv`raised
    ensures hv.faults >= old(hv.faults)
    ensures r.Failed? ==> hv.raised == Some(r.error)
    ensures hv.faults == old(hv.faults) && name !in old(hv.domains) && overlay in old(hv.pool).disk && net in hv.nets ==> r.Fine?
    ensures r.Fine? ==> name !in old(hv.domains) && overlay in old(hv.pool).disk && net in hv.nets
                        && hv.domains == old(hv.domains) + {name}
    ensures old(hv.domains) <= hv.domains <= old(hv.domains) + {name}
    ensures hv.pool == old(hv.pool)
            || hv.pool == old(hv.pool).(disk := old(hv.pool).disk[console := Volume([], None)])
  {
    if name in hv.domains || overlay !in hv.pool.disk || net !in hv.nets {
      r := hv.Raise(LibvirtError("cannot install"));
      return;
    }
    r := Inject(hv);
    var defined := Perhaps();
    if r.Fine? || defined { hv.domains := hv.domains + {name}; }
    var started := Perhaps();
    if started {
      hv.pool := hv.pool.(disk := hv.pool.disk[console := Volume([], None)]);
    }
  }

  // --- _destroy_matching ------------------------------------------------------

  // A listing is gone through in whatever order libvirt gives it. A domain is stopped before it
  // is undefined and a network before it is undefined; both commands leave the object in place
  // and their failures are ignored.

  /** One more removal was tried: `gone` and `failed` say what came of those before it. */
  lemma OneMore(done: set<string>, x: string, owns: Matcher, fate: Fates)
    requires x !in done
    ensures GoneDomains(done + {x}, owns, fate)
            == GoneDomains(done, owns, fate) + if owns(x) && TakesEffect(fate(Cmd.Undefine(x))) then {x} else {}
    ensures FailedDomains(done + {x}, owns, fate)
            == FailedDomains(done, owns, fate) + if owns(x) && Fails(fate(Cmd.Undefine(x))) then {Cmd.Undefine(x)} else {}
    ensures GoneVolumes(done + {x}, owns, fate)
            == GoneVolumes(done, owns, fate) + if Deletable(owns, x) && TakesEffect(fate(Cmd.VolDelete(x))) then {x} else {}
    ensures FailedVolumes(done + {x}, owns, fate)
            == FailedVolumes(done, owns, fate) + if Deletable(owns, x) && Fails(fate(Cmd.VolDelete(x))) then {Cmd.VolDelete(x)} else {}
    ensures GoneNets(done + {x}, owns, fate)
            == GoneNets(done, owns, fate) + if owns(x) && TakesEffect(fate(Cmd.NetUndefine(x))) then {x} else {}
    ensures FailedNets(done + {x}, owns, fate)
            == FailedNets(done, owns, fate) + if owns(x) && Fails(fate(Cmd.NetUndefine(x))) then {Cmd.NetUndefine(x)} else {}
  {
  }

  /** A failure is noted, and the teardown goes on. */
  method Complain(errors: seq<Cmd>, cmd: Cmd, fate: Fates, ghost failed: set<Cmd>) returns (more: seq<Cmd>)
    requires Reports(errors, failed) && cmd !in failed
    ensures Reports(more, failed + if Fails(fate(cmd)) then {cmd} else {})
  {
    more := errors;
    if Fails(fate(cmd)) {
      ReportsJoin(errors, failed, [cmd], {cmd});
      more := errors + [cmd];
    }
  }

  method UndefineDomains(hv: Hypervisor, owns: Matcher, fate: Fates) returns (errors: seq<Cmd>)
    modifies hv`domains, hv`record
    ensures old(hv.record) <= hv.record
    ensures hv.domains == old(hv.domains) - GoneDomains(old(hv.domains), owns, fate)
    ensures Reports(errors, FailedDomains(old(hv.domains), owns, fate))
  {
    errors := [];
    var rest := hv.domains;
    ghost var done: set<string> := {};
    while rest != {}
      invariant done + rest == old(hv.domains) && done !! rest
      invariant old(hv.record) <= hv.record
      invariant hv.domains == old(hv.domains) - GoneDomains(done, owns, fate)
      invariant Reports(errors, FailedDomains(done, owns, fate))
    {
      var dom :| dom in rest;
      OneMore(done, dom, owns, fate);
      if owns(dom) {
        hv.Undefine(dom, fate(Cmd.Undefine(dom)));
        errors := Complain(errors, Cmd.Undefine(dom), fate, FailedDomains(done, owns, fate));
      }
      rest, done := rest - {dom}, done + {dom};
    }
  }

  method DeleteVolumes(hv: Hypervisor, owns: Matcher, fate: Fates) returns (errors: seq<Cmd>)
    requires hv.pool.listed == hv.pool.disk.Keys
    modifies hv`pool, hv`record
    ensures old(hv.record) <= hv.record
    ensures var gone := GoneVolumes(old(hv.pool).disk.Keys, owns, fate);
            hv.pool == Pool(old(hv.pool).disk - gone, old(hv.pool).listed - gone)
    ensures Reports(errors, FailedVolumes(old(hv.pool).disk.Keys, owns, fate))
  {
    errors := [];
    var rest := hv.pool.listed;
    ghost var done: set<string>, gone: set<string> := {}, {};
    assert hv.pool.disk - gone == hv.pool.disk;
    while rest != {}
      invariant done + rest == old(hv.pool).listed && done !! rest
      invariant old(hv.record) <= hv.record
      invariant gone == GoneVolumes(done, owns, fate)
      invariant hv.pool == Pool(old(hv.pool).disk - gone, old(hv.pool).listed - gone)
      invariant Reports(errors, FailedVolumes(done, owns, fate))
    {
      var vol :| vol in rest;
      OneMore(done, vol, owns, fate);
      if owns(vol) && !(BASE_PREFIX <= vol) {
        hv.VolDelete(vol, fate(Cmd.VolDelete(vol)));
        errors := Complain(errors, Cmd.VolDelete(vol), fate, FailedVolumes(done, owns, fate));
        if TakesEffect(fate(Cmd.VolDelete(vol))) {
          assert old(hv.pool).disk - gone - {vol} == old(hv.pool).disk - (gone + {vol});
          gone := gone + {vol};
        }
      }
      rest, done := rest - {vol}, done + {vol};
    }
  }

  method UndefineNets(hv: Hypervisor, owns: Matcher, fate: Fates) returns (errors: seq<Cmd>)
    modifies hv`nets, hv`record
    ensures old(hv.record) <= hv.record
    ensures hv.nets == old(hv.nets) - GoneNets(old(hv.nets).Keys, owns, fate)
    ensures Reports(errors, FailedNets(old(hv.nets).Keys, owns, fate))
  {
    errors := [];
    var rest := hv.nets.Keys;
    ghost var done: set<string>, gone: set<string> := {}, {};
    assert hv.nets - gone == hv.nets;
    while rest != {}
      invariant done + rest == old(hv.nets).Keys && done !! rest
      invariant old(hv.record) <= hv.record
      invariant gone == GoneNets(done, owns, fate)
      invariant hv.nets == old(hv.nets) - gone
      invariant Reports(errors, FailedNets(done, owns, fate))
    {
      var net :| net in rest;
      OneMore(done, net, owns, fate);
      if owns(net) {
        hv.NetUndefine(net, fate(Cmd.NetUndefine(net)));
        errors := Complain(errors, Cmd.NetUndefine(net), fate, FailedNets(done, owns, fate));
        if TakesEffect(fate(Cmd.NetUndefine(net))) {
          assert old(hv.nets) - gone - {net} == old(hv.nets) - (gone + {net});
          gone := gone + {net};
        }
      }
      rest, done := rest - {net}, done + {net};
    }
  }

  /** The refresh makes console logs visible: QEMU created them, not virsh. */
  method RefreshAndDelete(hv: Hypervisor, owns: Matcher, fate: Fates) returns (stop: Option<Cmd>, errors: seq<Cmd>)
    modifies hv`pool, hv`record
    ensures old(hv.record) <= hv.record
    ensures stop == if Fails(fate(PoolRefresh)) then Some(PoolRefresh) else if Fails(fate(VolList)) then Some(VolList) else None
    ensures var disk, gone := old(hv.pool).disk, GoneVolumes(old(hv.pool).disk.Keys, owns, fate);
            hv.pool == if stop == None then Pool(disk - gone, disk.Keys - gone)
                       else if TakesEffect(fate(PoolRefresh)) then old(hv.pool).Refresh() else old(hv.pool)
    ensures stop == None ==> Reports(errors, FailedVolumes(old(hv.pool).disk.Keys, owns, fate))
  {
    errors := [];
    hv.PoolRefresh(fate(PoolRefresh));
    if Fails(fate(PoolRefresh)) { return Some(PoolRefresh), errors; }
    if Fails(fate(VolList)) { return Some(VolList), errors; }
    errors := DeleteVolumes(hv, owns, fate);
    return None, errors;
  }

  function FailedRest(s: Hv, owns: Matcher, fate: Fates): set<Cmd> {
    (if s.active then FailedVolumes(s.pool.disk.Keys, owns, fate) else {}) + FailedNets(s.nets.Keys, owns, fate)
  }

  /** Volumes, then networks. */
  method DestroyRest(hv: Hypervisor, owns: Matcher, fate: Fates) returns (stop: Option<Cmd>, errors: seq<Cmd>)
    requires fate(ListDomains).Done?
    modifies hv`pool, hv`nets, hv`record
    ensures old(hv.record) <= hv.record
    ensures stop == Stop(hv.active, fate)
    ensures hv.pool == After(old(hv.State()), owns, fate).pool
    ensures hv.nets == After(old(hv.State()), owns, fate).nets
    ensures stop == None ==> Reports(errors, FailedRest(old(hv.State()), owns, fate))
  {
    ghost var s := hv.State();
    stop, errors := None, [];
    if Fails(fate(PoolList)) { return Some(PoolList), errors; }
    if hv.active {
      stop, errors := RefreshAndDelete(hv, owns, fate);
      if stop.Some? { return; }
    }
    assert hv.pool == After(s, owns, fate).pool;
    if Fails(fate(NetList)) { return Some(NetList), errors; }
    var nets := UndefineNets(hv, owns, fate);
    ReportsJoin(errors, if s.active then FailedVolumes(s.pool.disk.Keys, owns, fate) else {}, nets, FailedNets(s.nets.Keys, owns, fate));
    errors := errors + nets;
  }

  /** Domains, then volumes, then networks. A failed removal stops nothing; a failed listing or
      refresh does. */
  method DestroyMatching(hv: Hypervisor, owns: Matcher, fate: Fates) returns (report: Report, errors: seq<Cmd>)
    modifies hv`domains, hv`pool, hv`nets, hv`record
    ensures old(hv.record) + [TearingDown] <= hv.record
    ensures hv.State() == After(old(hv.State()), owns, fate)
    ensures report == ReportOf(old(hv.State()), owns, fate)
    ensures !report.Stopped? ==> Reports(errors, Failures(old(hv.State()), owns, fate))
  {
    ghost var s := hv.State();
    hv.Note(TearingDown);
    errors := [];
    if Fails(fate(ListDomains)) { return Stopped(ListDomains), errors; }
    var doms := UndefineDomains(hv, owns, fate);
    var stop, rest := DestroyRest(hv, owns, fate);
    if stop.Some? { return Stopped(stop.value), errors; }
    ReportsJoin(doms, FailedDomains(s.domains, owns, fate), rest, FailedRest(s, owns, fate));
    errors := doms + rest;
    assert FailedDomains(s.domains, owns, fate) + FailedRest(s, owns, fate) == Failures(s, owns, fate);
    if errors == [] {
      report := Clean;
    } else {
      assert errors[0] in Failures(s, owns, fate);
      report := Incomplete(set c | c in errors);
    }
  }

  /** How a sequence of commands goes: how each of them fares, and whether an interrupt cuts the
      sequence short. The command it strikes may have taken effect; those never reached count
      as refused. */
  datatype Course = Course(fate: Fates, interrupted: bool)

  /** `destroy_run`, which raises what the teardown reports. */
  method DestroyRun(hv: Hypervisor, id: string, how: Course) returns (r: Status)
    modifies hv`domains, hv`pool, hv`nets, hv`record
    ensures old(hv.record) + [TearingDown] <= hv.record
    ensures hv.State() == After(old(hv.State()), RunMatcher(id), how.fate)
    ensures r.Fine? <==> !how.interrupted && ReportOf(old(hv.State()), RunMatcher(id), how.fate) == Clean
    ensures r.Failed? ==> (r.error == Interrupt <==> how.interrupted)
    ensures r.Failed? && !how.interrupted ==> r.error.LibvirtError?
  {
    var report, _ := DestroyMatching(hv, RunMatcher(id), how.fate);
    if how.interrupted { return Failed(Interrupt); }
    return if report.Clean? then Fine else Failed(LibvirtError("teardown incomplete"));
  }

  // --- collect_consoles -------------------------------------------------------

  predicate IsConsole(id: string, vol: string) {
    BelongsTo(Tag(id), vol) && EndsWith(vol, "-console.log")
  }

  /** The file a console log is saved to, in the run's artifacts directory. */
  function SavedAs(id: string, vol: string): (string, string) {
    var prefix := Tag(id) + "-";
    (id, if prefix <= vol then vol[|prefix|..] else vol)
  }

  lemma SavedShape(id: string, v: string)
    requires IsConsole(id, v)
    ensures var file := SavedAs(id, v).1;
            file != [] && if v == Tag(id) then file == v && file[0] == 'l' else v == Tag(id) + "-" + file && file[0] == 'h'
  {
    var prefix := Tag(id) + "-";
    if v == Tag(id) {
      assert !(prefix <= v);
    } else {
      assert prefix <= Tag(id) + HOST;
      assert v[|prefix|] == (Tag(id) + HOST)[|prefix|] == 'h';
    }
  }

  /** Of the run's own files the console logs are taken, each saved as host<i>-console.log, and no
      overlay is. */
  lemma OwnConsoles(id: string, i: nat)
    ensures IsConsole(id, ConsoleName(id, i))
    ensures SavedAs(id, ConsoleName(id, i)) == (id, "host" + Dec(i) + "-console.log")
    ensures !IsConsole(id, OverlayName(id, i))
  {
    OwnNamesMatched(id, ConsoleName(id, i));
    Suffix(NodeName(id, i), "-console.log");
    OwnConsoleSavedAs(id, i);
    var o := OverlayName(id, i);
    assert o[|o| - 1] == '2';
  }

  lemma Suffix(s: string, t: string)
    ensures EndsWith(s + t, t)
  {
  }

  lemma OwnConsoleSavedAs(id: string, i: nat)
    ensures SavedAs(id, ConsoleName(id, i)) == (id, "host" + Dec(i) + "-console.log")
  {
    var prefix, file := Tag(id) + "-", "host" + Dec(i) + "-console.log";
    assert ConsoleName(id, i) == prefix + file;
  }

  lemma SavedApart(id: string, v: string, w: string)
    requires IsConsole(id, v) && IsConsole(id, w) && SavedAs(id, v) == SavedAs(id, w)
    ensures v == w
  {
    SavedShape(id, v);
    SavedShape(id, w);
  }

  /** The pool's listing after a collection, which is all the collection changes. */
  function Collected(s: Hv, fate: Fates): Hv {
    if s.active && fate(PoolList).Done? && TakesEffect(fate(PoolRefresh)) then s.(pool := s.pool.Refresh()) else s
  }

  /** Nothing saved is lost, what is new are console logs of the run as they are on disk, and
      other runs' files are as they were. */
  ghost predicate OnlyConsolesSaved(id: string, disk: map<string, Volume>, before: map<(string, string), Volume>, after: map<(string, string), Volume>) {
    && before.Keys <= after.Keys
    && forall k :: k in after && !(k in before && after[k] == before[k]) ==>
         k.0 == id && exists v :: v in disk && IsConsole(id, v) && k == SavedAs(id, v) && after[k] == disk[v]
  }

  /** The first failure ends it. An Exception is swallowed, but an interrupt is not one. When
      nothing fails, every console log of the run on disk is saved, under a file name of its
      own. */
  method CollectConsoles(hv: Hypervisor, id: string, how: Course) returns (r: Status)
    modifies hv`pool, hv`saved, hv`record
    ensures r == if how.interrupted then Failed(Interrupt) else Fine
    ensures old(hv.record) + [CollectingConsoles] <= hv.record && Quiet(old(hv.record), hv.record)
    ensures hv.State() == Collected(old(hv.State()), how.fate) && hv.pool.disk == old(hv.pool).disk
    ensures hv.active && (forall c :: how.fate(c).Done?) ==>
              forall v :: v in hv.pool.disk && IsConsole(id, v) ==>
                SavedAs(id, v) in hv.saved && hv.saved[SavedAs(id, v)] == hv.pool.disk[v]
    ensures hv.active && (forall c :: how.fate(c).Done?) ==>
              forall i: nat :: ConsoleName(id, i) in hv.pool.disk ==>
                var file := (id, "host" + Dec(i) + "-console.log");
                file in hv.saved && hv.saved[file] == hv.pool.disk[ConsoleName(id, i)]
    ensures OnlyConsolesSaved(id, hv.pool.disk, old(hv.saved), hv.saved)
  {
    forall i: nat ensures IsConsole(id, ConsoleName(id, i)) && SavedAs(id, ConsoleName(id, i)) == (id, "host" + Dec(i) + "-console.log") {
      OwnConsoles(id, i);
    }
    hv.Note(CollectingConsoles);
    r := if how.interrupted then Failed(Interrupt) else Fine;
    if Fails(how.fate(PoolList)) || !hv.active { return; }
    hv.PoolRefresh(how.fate(PoolRefresh));
    if Fails(how.fate(PoolRefresh)) || Fails(how.fate(VolList)) { return; }
    DownloadConsoles(hv, id, how.fate);
  }

  method DownloadConsoles(hv: Hypervisor, id: string, fate: Fates)
    requires hv.pool.listed == hv.pool.disk.Keys
    modifies hv`saved, hv`record
    ensures Quiet(old(hv.record), hv.record)
    ensures (forall c :: fate(c).Done?) ==>
              forall v :: v in hv.pool.disk && IsConsole(id, v) ==>
                SavedAs(id, v) in hv.saved && hv.saved[SavedAs(id, v)] == hv.pool.disk[v]
    ensures OnlyConsolesSaved(id, hv.pool.disk, old(hv.saved), hv.saved)
  {
    var rest := hv.pool.listed;
    ghost var done: set<string> := {};
    while rest != {}
      invariant done + rest == hv.pool.listed && done !! rest
      invariant Quiet(old(hv.record), hv.record)
      invariant forall v :: v in done && IsConsole(id, v) ==>
                  SavedAs(id, v) in hv.saved && hv.saved[SavedAs(id, v)] == hv.pool.disk[v]
      invariant OnlyConsolesSaved(id, hv.pool.disk, old(hv.saved), hv.saved)
    {
      var vol :| vol in rest;
      if IsConsole(id, vol) {
        hv.Note(Ran(VolDownload(vol)));
        if Fails(fate(VolDownload(vol))) { return; }
        forall v | v in done && IsConsole(id, v) ensures SavedAs(id, v) != SavedAs(id, vol) {
          if SavedAs(id, v) == SavedAs(id, vol) { SavedApart(id, v, vol); }
        }
        hv.saved := hv.saved[SavedAs(id, vol) := hv.pool.disk[vol]];
      }
      rest, done := rest - {vol}, done + {vol};
    }
  }
}
