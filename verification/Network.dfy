/** Choice of a free /24 and creation of the run's network on it. */
module Network {
  import opened Wrappers
  import opened Text
  import opened Hypervisor

  const SUBNET_ATTEMPTS := 5

  function Candidate(prefix: string, n: nat): string {
    prefix + "." + Dec(n)
  }

  function Gateway(subnet: string): string {
    subnet + ".1"
  }

  function Used(nets: map<string, string>): set<string> {
    set n | n in nets :: RangeOf(nets[n])
  }

  lemma CandidateInjective(prefix: string, m: nat, n: nat)
    requires Candidate(prefix, m) == Candidate(prefix, n)
    ensures m == n
  {
    assert Candidate(prefix, m)[|prefix| + 1..] == Dec(m);
    assert Candidate(prefix, n)[|prefix| + 1..] == Dec(n);
    DecInjective(m, n);
  }

  lemma RangeOfGateway(subnet: string)
    ensures RangeOf(Gateway(subnet)) == subnet
  {
    assert Gateway(subnet) == subnet + ['.'] + "1";
    SplitLast(subnet, '.', "1");
  }

  /** An address in a /24: the range's three octets, a dot and one more. */
  ghost predicate LiesIn(address: string, range: string) {
    exists octet :: '.' !in octet && address == range + "." + octet
  }

  /** Some network that libvirt lists has its address there. */
  ghost predicate Taken(nets: map<string, string>, range: string) {
    exists n :: n in nets && LiesIn(nets[n], range)
  }

  /** The ranges read back from the listing are those taken. */
  lemma UsedExact(nets: map<string, string>, range: string)
    requires '.' in range
    ensures range in Used(nets) <==> Taken(nets, range)
  {
    if range in Used(nets) {
      var n :| n in nets && RangeOf(nets[n]) == range;
      BeforeLastExact(nets[n], '.');
      assert LiesIn(nets[n], range);
    }
    if Taken(nets, range) {
      var n :| n in nets && LiesIn(nets[n], range);
      var octet :| '.' !in octet && nets[n] == range + "." + octet;
      SplitLast(range, '.', octet);
      assert RangeOf(nets[n]) == range;
    }
  }

  lemma CandidatesUsedExact(nets: map<string, string>, prefix: string)
    ensures forall k: nat :: Candidate(prefix, k) in Used(nets) <==> Taken(nets, Candidate(prefix, k))
  {
    forall k: nat ensures Candidate(prefix, k) in Used(nets) <==> Taken(nets, Candidate(prefix, k)) {
      assert Candidate(prefix, k)[|prefix|] == '.';
      UsedExact(nets, Candidate(prefix, k));
    }
  }

  /** The least n whose range is neither taken nor busy. */
  ghost predicate LeastFree(prefix: string, nets: map<string, string>, busy: set<string>, n: nat) {
    && n < 256
    && !Taken(nets, Candidate(prefix, n)) && Candidate(prefix, n) !in busy
    && forall k: nat :: k < n ==> Taken(nets, Candidate(prefix, k)) || Candidate(prefix, k) in busy
  }

  /** The ranges below m that look free to libvirt but are in use. */
  ghost function Traps(prefix: string, nets: map<string, string>, busy: set<string>, m: nat): set<nat> {
    set k: nat | k < m && !Taken(nets, Candidate(prefix, k)) && Candidate(prefix, k) in busy
  }

  /** What create_network may choose: the least free range, if fewer traps than there are
      attempts, five, lie below it. */
  ghost predicate Choice(prefix: string, nets: map<string, string>, busy: set<string>, n: nat) {
    LeastFree(prefix, nets, busy, n) && |Traps(prefix, nets, busy, n)| < 5
  }

  /** The first range that no listed address lies in and that is not to be skipped. */
  ghost predicate Picks(nets: map<string, string>, prefix: string, skip: set<string>, at: nat) {
    && at < 256
    && !Taken(nets, prefix + "." + Dec(at)) && prefix + "." + Dec(at) !in skip
    && forall k: nat :: k < at ==> Taken(nets, Candidate(prefix, k)) || Candidate(prefix, k) in skip
  }

  method PickSubnet(hv: Hypervisor, prefix: string, skip: set<string>) returns (r: Result<string>, ghost at: nat)
    modifies hv`faults, hv`raised
    ensures hv.faults >= old(hv.faults)
    ensures r.Raised? ==> hv.raised == Some(r.error)
    ensures r.Ok? ==> hv.faults == old(hv.faults) && Picks(hv.nets, prefix, skip, at) && r.value == prefix + "." + Dec(at)
    ensures r.Raised? && hv.faults == old(hv.faults) ==>
              r.error.LibvirtError?
              && forall k: nat :: k < 256 ==> Taken(hv.nets, Candidate(prefix, k)) || Candidate(prefix, k) in skip
  {
    at := 0;
    CandidatesUsedExact(hv.nets, prefix);
    var listing := Inject(hv);
    if listing.Failed? { return Raised(listing.error), at; }
    var used := Used(hv.nets) + skip;
    for n := 0 to 256
      invariant forall k: nat :: k < n ==> Candidate(prefix, k) in used
    {
      var candidate := Candidate(prefix, n);
      if candidate !in used { return Ok(candidate), n; }
    }
    var none := hv.Raise(LibvirtError("no free /24"));
    return Raised(none.error), at;
  }

  /** Every range below f is taken or was tried, and the tried ones are the traps below f. */
  ghost predicate Searched(prefix: string, nets: map<string, string>, busy: set<string>, tried: set<string>, attempts: nat, f: nat) {
    && f <= 256
    && (forall k: nat :: k < f ==> Taken(nets, Candidate(prefix, k)) || Candidate(prefix, k) in tried)
    && (forall c :: c in tried ==> exists k: nat :: k < f && c == Candidate(prefix, k))
    && (forall c :: c in tried ==> c in busy && !Taken(nets, c))
    && |Traps(prefix, nets, busy, f)| == attempts
  }

  /** No trap lies between the last one tried and the one just picked. */
  lemma TrapsBelowPick(prefix: string, nets: map<string, string>, busy: set<string>, tried: set<string>, attempts: nat, f: nat, at: nat)
    requires Searched(prefix, nets, busy, tried, attempts, f)
    requires !Taken(nets, Candidate(prefix, at)) && Candidate(prefix, at) !in tried
    requires forall k: nat :: k < at ==> Taken(nets, Candidate(prefix, k)) || Candidate(prefix, k) in tried
    ensures f <= at && |Traps(prefix, nets, busy, at)| == attempts
  {
    forall k | k in Traps(prefix, nets, busy, at) ensures k < f {
      assert Candidate(prefix, k) in tried;
      var j: nat :| j < f && Candidate(prefix, k) == Candidate(prefix, j);
      CandidateInjective(prefix, k, j);
    }
    assert Traps(prefix, nets, busy, at) == Traps(prefix, nets, busy, f);
  }

  lemma PickedOne(prefix: string, nets: map<string, string>, busy: set<string>, tried: set<string>, attempts: nat, f: nat, at: nat)
    requires Searched(prefix, nets, busy, tried, attempts, f) && Picks(nets, prefix, tried, at)
    ensures Candidate(prefix, at) !in busy ==> LeastFree(prefix, nets, busy, at) && |Traps(prefix, nets, busy, at)| == attempts
    ensures Candidate(prefix, at) in busy ==>
              Searched(prefix, nets, busy, tried + {Candidate(prefix, at)}, attempts + 1, at + 1)
  {
    TrapsBelowPick(prefix, nets, busy, tried, attempts, f, at);
    if Candidate(prefix, at) in busy {
      PickedTrap(prefix, nets, busy, tried, attempts, f, at);
    }
  }

  lemma PickedTrap(prefix: string, nets: map<string, string>, busy: set<string>, tried: set<string>, attempts: nat, f: nat, at: nat)
    requires Searched(prefix, nets, busy, tried, attempts, f) && Picks(nets, prefix, tried, at) && f <= at
    requires Candidate(prefix, at) in busy && |Traps(prefix, nets, busy, at)| == attempts
    ensures Searched(prefix, nets, busy, tried + {Candidate(prefix, at)}, attempts + 1, at + 1)
  {
    OneMoreTrap(prefix, nets, busy, at);
    forall c | c in tried + {Candidate(prefix, at)} ensures exists k: nat :: k < at + 1 && c == Candidate(prefix, k) {
      if c in tried {
        var k: nat :| k < f && c == Candidate(prefix, k);
        assert k < at + 1;
      }
    }
  }

  lemma OneMoreTrap(prefix: string, nets: map<string, string>, busy: set<string>, at: nat)
    requires !Taken(nets, Candidate(prefix, at)) && Candidate(prefix, at) in busy
    ensures |Traps(prefix, nets, busy, at + 1)| == |Traps(prefix, nets, busy, at)| + 1
  {
    assert Traps(prefix, nets, busy, at + 1) == Traps(prefix, nets, busy, at) + {at};
  }

  /** When the search stops without success, no choice existed. */
  lemma NoChoice(prefix: string, nets: map<string, string>, busy: set<string>, tried: set<string>, attempts: nat, f: nat)
    requires Searched(prefix, nets, busy, tried, attempts, f)
    requires attempts == SUBNET_ATTEMPTS
             || forall k: nat :: k < 256 ==> Taken(nets, Candidate(prefix, k)) || Candidate(prefix, k) in tried
    ensures forall n :: !Choice(prefix, nets, busy, n)
  {
    forall n | LeastFree(prefix, nets, busy, n) ensures |Traps(prefix, nets, busy, n)| >= SUBNET_ATTEMPTS {
      assert f <= n;
      Subset(Traps(prefix, nets, busy, f), Traps(prefix, nets, busy, n));
    }
  }

  lemma {:induction false} Subset(a: set<nat>, b: set<nat>)
    requires a <= b
    ensures |a| <= |b|
  {
    if a != {} {
      var x :| x in a;
      Subset(a - {x}, b - {x});
    }
  }

  datatype Start = Started | Rejected(error: Exn) | Broken(error: Exn)

  /** Define and start the network on one range; when the start is refused, undefine it. */
  method StartOrUndo(hv: Hypervisor, tag: string, subnet: string) returns (r: Start)
    modifies hv`nets, hv`faults, hv`raised
    ensures hv.faults >= old(hv.faults)
    ensures hv.nets - {tag} == old(hv.nets) - {tag}
    ensures r.Broken? ==> hv.raised == Some(r.error)
    ensures r.Started? ==> hv.nets == old(hv.nets)[tag := subnet + ".1"] && subnet !in hv.busy
    ensures r.Rejected? ==> hv.nets == old(hv.nets) - {tag} && r.error.LibvirtError?
    ensures hv.faults == old(hv.faults) ==> !r.Broken? && (r.Rejected? <==> subnet in hv.busy)
  {
    RangeOfGateway(subnet);
    var defined := NetDefine(hv, tag, Gateway(subnet));
    if defined.Failed? { return Broken(defined.error); }
    var started := NetStart(hv, tag);
    if started.Fine? { return Started; }
    if !started.error.LibvirtError? { return Broken(started.error); }
    var undefined := NetUndefineOrFail(hv, tag);
    if undefined.Failed? { return Broken(undefined.error); }
    return Rejected(started.error);
  }

  /** Up to SUBNET_ATTEMPTS times: pick, define, start; on a refused start undefine and go on.
      The range it succeeds on is one that no other listed network has its address in. Free of
      faults, and with no network of that name before, it succeeds exactly when a choice
      exists, on that choice, and otherwise leaves no network behind. In every case it touches
      no other network. */
  method CreateNetwork(hv: Hypervisor, tag: string, prefix: string) returns (r: Result<string>)
    modifies hv`nets, hv`faults, hv`raised
    ensures hv.faults >= old(hv.faults)
    ensures hv.nets - {tag} == old(hv.nets) - {tag}
    ensures r.Raised? ==> hv.raised == Some(r.error)
    ensures r.Ok? ==> tag in hv.nets && hv.nets[tag] == r.value + ".1" && r.value !in hv.busy
    ensures r.Ok? ==> exists n: nat :: n < 256 && r.value == prefix + "." + Dec(n)
    ensures r.Ok? ==> forall n :: n in old(hv.nets) && n != tag ==> !LiesIn(old(hv.nets)[n], r.value)
    ensures hv.faults == old(hv.faults) && tag !in old(hv.nets) ==>
              && (forall n: nat :: Choice(prefix, old(hv.nets), hv.busy, n) ==> r == Ok(Candidate(prefix, n)))
              && (r.Ok? ==> exists n: nat :: Choice(prefix, old(hv.nets), hv.busy, n))
              && (r.Raised? ==> r.error.LibvirtError? && hv.nets == old(hv.nets))
  {
    var tried: set<string> := {};
    ghost var f := 0;
    ghost var nets, busy := hv.nets, hv.busy;
    ghost var clean := tag !in hv.nets;
    var last := LibvirtError("");
    for attempt := 0 to SUBNET_ATTEMPTS
      invariant hv.faults >= old(hv.faults) && last.LibvirtError?
      invariant hv.nets - {tag} == nets - {tag}
      invariant hv.faults == old(hv.faults) && clean ==>
                  hv.nets == nets && Searched(prefix, nets, busy, tried, attempt, f)
    {
      var pick, at := PickSubnet(hv, prefix, tried);
      ghost var calm := hv.faults == old(hv.faults) && clean;
      if pick.Raised? {
        if calm { NoChoice(prefix, nets, busy, tried, attempt, f); }
        return pick;
      }
      var subnet := pick.value;
      NotTakenByOthers(nets, hv.nets, tag, subnet);
      if calm { PickedOne(prefix, nets, busy, tried, attempt, f, at); }
      tried := tried + {subnet};
      var start := StartOrUndo(hv, tag, subnet);
      if start.Started? {
        if calm && hv.faults == old(hv.faults) {
          OnlyChoice(prefix, nets, busy, at);
          assert Choice(prefix, nets, busy, at);
        }
        return Ok(subnet);
      }
      if start.Broken? { return Raised(start.error); }
      last := start.error;
      f := at + 1;
    }
    if hv.faults == old(hv.faults) && clean { NoChoice(prefix, nets, busy, tried, SUBNET_ATTEMPTS, f); }
    var gaveUp := hv.Raise(LibvirtError("could not start network: " + last.text));
    return Raised(gaveUp.error);
  }

  lemma NotTakenByOthers(before: map<string, string>, now: map<string, string>, tag: string, range: string)
    requires before - {tag} == now - {tag} && !Taken(now, range)
    ensures forall n :: n in before && n != tag ==> !LiesIn(before[n], range)
  {
    forall n | n in before && n != tag ensures !LiesIn(before[n], range) {
      assert n in before - {tag} && (before - {tag})[n] == (now - {tag})[n];
      assert n in now && now[n] == before[n];
    }
  }

  /** The choice is unique. */
  lemma OnlyChoice(prefix: string, nets: map<string, string>, busy: set<string>, n: nat)
    requires Choice(prefix, nets, busy, n)
    ensures forall m: nat :: Choice(prefix, nets, busy, m) ==> m == n
  {
  }
}
