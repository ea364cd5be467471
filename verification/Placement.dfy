/** Host capacity that forces microVMs to spread. */
module Placement {
  const RESERVE_VCPU := 1
  const RESERVE_MEM := 1024

  /** A microVM's size, and how many the placement test creates. */
  datatype Shape = Shape(count: int, vcpu: nat, mem: nat)

  predicate Positive(s: Shape) {
    s.vcpu > 0 && s.mem > 0
  }

  /** Each host's capacity, in vCPUs and MB. */
  function Capacity(s: Shape): (int, int) {
    var n := if s.count > 2 then s.count else 2;
    (RESERVE_VCPU + (n - 1) * s.vcpu, RESERVE_MEM + (n - 1) * s.mem)
  }

  /** k microVMs and the reserve fit one host's vCPUs, its memory, and both. */
  predicate FitsVcpu(s: Shape, k: nat) {
    1 + k * s.vcpu <= Capacity(s).0
  }

  predicate FitsMem(s: Shape, k: nat) {
    1024 + k * s.mem <= Capacity(s).1
  }

  predicate Fits(s: Shape, k: nat) {
    FitsVcpu(s, k) && FitsMem(s, k)
  }

  /** The host of each microVM placed so far. */
  type Placement = seq<nat>

  function Load(p: Placement, host: nat): nat {
    if p == [] then 0 else Load(p[1..], host) + if p[0] == host then 1 else 0
  }

  /** Every microVM is on one of the hosts, and every host holds what it can. */
  predicate Respects(s: Shape, hosts: nat, p: Placement) {
    && (forall i :: 0 <= i < |p| ==> p[i] < hosts)
    && (forall h :: 0 <= h < hosts ==> Fits(s, Load(p, h)))
  }

  /** A host tops out at one microVM less than the test creates, but at one at least, by its
      vCPUs and by its memory, each alone. */
  lemma FitsExact(s: Shape, k: nat)
    requires Positive(s)
    ensures FitsVcpu(s, k) <==> k <= 1 || k <= s.count - 1
    ensures FitsMem(s, k) <==> k <= 1 || k <= s.count - 1
    ensures Fits(s, k) <==> k <= 1 || k <= s.count - 1
  {
    var most := if s.count > 2 then s.count - 1 else 1;
    Scaled(k, most, s.vcpu);
    Scaled(k, most, s.mem);
  }

  lemma Scaled(k: int, n: int, unit: int)
    requires unit > 0
    ensures k * unit <= n * unit <==> k <= n
  {
    assert (n - k) * unit == n * unit - k * unit;
  }

  lemma {:induction false} AllOnOne(p: Placement, host: nat)
    requires forall i :: 0 <= i < |p| ==> p[i] == host
    ensures Load(p, host) == |p|
  {
    if p != [] {
      AllOnOne(p[1..], host);
    }
  }

  /** Any placement of all microVMs that respects the capacities uses two hosts at least. */
  lemma MustSpread(s: Shape, hosts: nat, p: Placement)
    requires Positive(s) && s.count >= 2 && |p| == s.count && Respects(s, hosts, p)
    ensures exists i, j :: 0 <= i < j < |p| && p[i] != p[j]
  {
    FitsExact(s, Load(p, p[0]));
    if forall i :: 0 <= i < |p| ==> p[i] == p[0] {
      AllOnOne(p, p[0]);
      assert false;
    }
    var j :| 0 <= j < |p| && p[j] != p[0];
  }

  lemma {:induction false} TwoHostsHoldAtMostAll(p: Placement, a: nat, b: nat)
    requires a != b
    ensures Load(p, a) + Load(p, b) <= |p|
  {
    if p != [] {
      TwoHostsHoldAtMostAll(p[1..], a, b);
    }
  }

  lemma {:induction false} LoadSnoc(p: Placement, h: nat, host: nat)
    ensures Load(p + [h], host) == Load(p, host) + if h == host then 1 else 0
  {
    if p == [] {
      assert p + [h] == [h];
      assert [h][1..] == [];
    } else {
      assert (p + [h])[1..] == p[1..] + [h];
      LoadSnoc(p[1..], h, host);
    }
  }

  /** With two hosts or more, a scheduler that has placed some but not all microVMs, in any
      way that respects the capacities, always finds a host with room. */
  lemma NeverStuck(s: Shape, hosts: nat, p: Placement)
    requires Positive(s) && s.count >= 2 && hosts >= 2 && |p| < s.count
    ensures exists h: nat :: h < hosts && Fits(s, Load(p, h) + 1)
  {
    TwoHostsHoldAtMostAll(p, 0, 1);
    var h: nat := if Load(p, 0) + 1 <= s.count - 1 then 0 else 1;
    FitsExact(s, Load(p, h) + 1);
  }

  /** Placing on a host with room keeps the capacities respected. */
  lemma RoomIsEnough(s: Shape, hosts: nat, p: Placement, h: nat)
    requires Respects(s, hosts, p) && h < hosts && Fits(s, Load(p, h) + 1)
    ensures Respects(s, hosts, p + [h])
  {
    forall g: nat | g < hosts ensures Fits(s, Load(p + [h], g)) {
      LoadSnoc(p, h, g);
      assert Load(p + [h], g) == if g == h then Load(p, h) + 1 else Load(p, g);
    }
  }

  lemma {:induction false} Pile(n: nat) returns (p: Placement)
    ensures |p| == n && forall i :: 0 <= i < n ==> p[i] == 0
    ensures forall h: nat :: Load(p, h) == if h == 0 then n else 0
  {
    if n == 0 {
      p := [];
    } else {
      var q := Pile(n - 1);
      p := [0] + q;
      assert p[1..] == q;
    }
  }

  /** Two hosts is all the capacities force: however many hosts there are, all microVMs but one
      may share one of them, and then every other host but one stays empty. */
  lemma TwoHostsMaySuffice(s: Shape, hosts: nat) returns (p: Placement)
    requires Positive(s) && s.count >= 2 && hosts >= 2
    ensures |p| == s.count && Respects(s, hosts, p) && forall i :: 0 <= i < |p| ==> p[i] < 2
  {
    var q := Pile(s.count - 1);
    p := q + [1];
    forall h: nat | h < hosts ensures Fits(s, Load(p, h)) {
      LoadSnoc(q, 1, h);
      FitsExact(s, Load(p, h));
    }
  }

  /** A full placement, as the placement test looks for it. */
  ghost predicate Full(s: Shape, hosts: nat, p: Placement) {
    |p| == s.count && Respects(s, hosts, p)
  }

  predicate UsesAll(hosts: nat, p: Placement) {
    forall h: nat :: h < hosts ==> h in p
  }

  /** The capacities force microVMs onto all hosts exactly when there are no more than two. */
  lemma AllHostsExact(s: Shape, hosts: nat)
    requires Positive(s) && s.count >= 2
    ensures (forall p :: Full(s, hosts, p) ==> UsesAll(hosts, p)) <==> hosts <= 2
  {
    if hosts <= 2 {
      forall p | Full(s, hosts, p) ensures UsesAll(hosts, p) {
        MustSpread(s, hosts, p);
        var i, j :| 0 <= i < j < |p| && p[i] != p[j];
        assert p[i] in p && p[j] in p;
      }
    } else {
      var p := TwoHostsMaySuffice(s, hosts);
      assert Full(s, hosts, p) && 2 !in p;
      assert !UsesAll(hosts, p);
    }
  }

  /** So whatever host `pick` prefers among those with room, all microVMs get placed, on at
      least two hosts. */
  lemma {:induction false} SchedulerCompletes(s: Shape, hosts: nat, p: Placement, pick: Placement -> nat) returns (all: Placement)
    requires Positive(s) && s.count >= 2 && hosts >= 2 && |p| <= s.count && Respects(s, hosts, p)
    requires forall q :: |q| < s.count && Respects(s, hosts, q) && (exists h: nat :: h < hosts && Fits(s, Load(q, h) + 1)) ==>
               pick(q) < hosts && Fits(s, Load(q, pick(q)) + 1)
    ensures |all| == s.count && p <= all && Respects(s, hosts, all)
    ensures forall k :: |p| <= k < |all| ==> all[k] == pick(all[..k])
    ensures exists i, j :: 0 <= i < j < |all| && all[i] != all[j]
    decreases s.count - |p|
  {
    if |p| == s.count {
      all := p;
      MustSpread(s, hosts, p);
    } else {
      NeverStuck(s, hosts, p);
      RoomIsEnough(s, hosts, p, pick(p));
      all := SchedulerCompletes(s, hosts, p + [pick(p)], pick);
      assert all[..|p|] == p && all[|p|] == (p + [pick(p)])[|p|];
    }
  }
}
