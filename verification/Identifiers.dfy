/** Identifiers the suite derives from indices, as text. */
module Identifiers {
  import opened Wrappers
  import opened Text
  import opened Names
  import opened Network
  import opened Provision

  // --- node names -------------------------------------------------------------

  /** Node names of all runs and all indices are distinct, isolated runs or not. */
  lemma NodeNamesNeverCollide(r: string, i: nat, s: string, j: nat)
    requires NodeName(r, i) == NodeName(s, j)
    ensures r == s && i == j
  {
    var m := NodeName(r, i)[|PREFIX|..];
    Stem(r, i);
    Stem(s, j);
    SameStem(r, i, s, j, m);
    SameStem(s, j, r, i, m);
    assert m[..|r|] == r && m[..|s|] == s;
    assert m[|r| + 5..] == Dec(i) && m[|s| + 5..] == Dec(j);
    DecInjective(i, j);
  }

  lemma Stem(r: string, i: nat)
    ensures PREFIX <= NodeName(r, i) && NodeName(r, i)[|PREFIX|..] == r + HOST + Dec(i)
  {
    assert NodeName(r, i) == PREFIX + (r + HOST + Dec(i));
  }

  lemma SameStem(r: string, i: nat, s: string, j: nat, m: string)
    requires m == r + HOST + Dec(i) && m == s + HOST + Dec(j)
    ensures |s| <= |r|
  {
    assert m[|s|] == (s + HOST)[|s|] == '-';
    assert m[|s|..|s| + 5] == HOST && m[|r|..|r| + 5] == HOST;
    forall k | |r| + 5 <= k < |m| ensures m[k] != '-' {
      assert m[k] == Dec(i)[k - |r| - 5];
    }
  }

  // --- MAC addresses ----------------------------------------------------------

  /** The third octet of a chosen range, read back from its text. */
  function ThirdOctet(subnet: string): Option<nat> {
    match AfterLast(subnet, '.')
    case None => None
    case Some(text) => ParseDec(text)
  }

  lemma ThirdOctetOfCandidate(prefix: string, n: nat)
    ensures ThirdOctet(Candidate(prefix, n)) == Some(n)
  {
    assert Candidate(prefix, n) == prefix + ['.'] + Dec(n);
    SplitLast(prefix, '.', Dec(n));
    ParseUndoesDec(n);
  }

  /** None where the code would print more than two digits for a field. */
  function MacFor(subnet: string, index: nat): Option<string> {
    match ThirdOctet(subnet)
    case None => None
    case Some(third) =>
      if third < 256 && index <= 245 then Some("52:54:00:d2:" + Hex2(third) + ":" + Hex2(10 + index)) else None
  }

  /** `guest_mac` of a microVM with a static address. */
  function GuestMac(index: nat): string {
    "aa:ff:00:01:" + Hex2(index / 256 % 256) + ":" + Hex2(index % 256)
  }

  const METADATA_MAC := "aa:ff:00:00:00:01"

  /** The last two fields of a MAC are those numbers. */
  predicate LastFields(mac: string, high: nat, low: nat) {
    |mac| == 17 && mac[11] == ':' && mac[14] == ':' && ParseHex2(mac[12..14]) == Some(high) && ParseHex2(mac[15..]) == Some(low)
  }

  lemma FieldsRead(head: string, high: nat, low: nat)
    requires |head| == 12 && head[11] == ':' && high < 256 && low < 256
    ensures LastFields(head + Hex2(high) + ":" + Hex2(low), high, low)
  {
    var mac := head + Hex2(high) + ":" + Hex2(low);
    assert mac[12..14] == Hex2(high) && mac[15..] == Hex2(low);
    ParseUndoesHex2(high);
    ParseUndoesHex2(low);
  }

  lemma MacOfCandidate(prefix: string, n: nat, i: nat)
    requires n < 256 && i <= 245
    ensures MacFor(Candidate(prefix, n), i).Some?
    ensures MacFor(Candidate(prefix, n), i).value[..12] == "52:54:00:d2:"
    ensures LastFields(MacFor(Candidate(prefix, n), i).value, n, 10 + i)
  {
    ThirdOctetOfCandidate(prefix, n);
    FieldsRead("52:54:00:d2:", n, 10 + i);
  }

  /** Hypervisor MACs exist for, and tell apart, every range create_network can choose and
      every node up to index 245: they carry the range's octet and the node's. */
  lemma MacsNeverCollide(prefix: string, m: nat, i: nat, n: nat, j: nat)
    requires m < 256 && n < 256 && i <= 245 && j <= 245
    ensures MacFor(Candidate(prefix, m), i).Some? && MacFor(Candidate(prefix, n), j).Some?
    ensures MacFor(Candidate(prefix, m), i).value[..12] == "52:54:00:d2:"
    ensures LastFields(MacFor(Candidate(prefix, m), i).value, m, 10 + i)
    ensures MacFor(Candidate(prefix, m), i) == MacFor(Candidate(prefix, n), j) ==> m == n && i == j
  {
    MacOfCandidate(prefix, m, i);
    MacOfCandidate(prefix, n, j);
  }

  /** A guest MAC ends in its index's low sixteen bits, so guest MACs coincide exactly for indices
      that agree modulo 65536. */
  lemma GuestMacsExact(i: nat, j: nat)
    ensures GuestMac(i)[..12] == "aa:ff:00:01:" && LastFields(GuestMac(i), i % 65536 / 256, i % 256)
    ensures GuestMac(i) == GuestMac(j) <==> i % 65536 == j % 65536
  {
    Low16(i);
    Low16(j);
    FieldsRead("aa:ff:00:01:", i / 256 % 256, i % 256);
    FieldsRead("aa:ff:00:01:", j / 256 % 256, j % 256);
  }

  lemma Low16(n: nat)
    ensures n % 65536 == n / 256 % 256 * 256 + n % 256
    ensures n / 256 % 256 == n % 65536 / 256 && n % 256 == n % 65536 % 256
  {
    var high := n / 256;
    SixteenBits(n, high / 256, high % 256 * 256 + n % 256);
  }

  lemma SixteenBits(n: nat, q: nat, r: nat)
    requires n == 65536 * q + r && r < 65536
    ensures n % 65536 == r
  {
  }

  /** No guest MAC is the metadata interface's, nor any hypervisor MAC. */
  lemma GuestMacsApart(i: nat, third: nat, low: nat)
    requires third < 256 && low < 256
    ensures GuestMac(i) != METADATA_MAC
    ensures GuestMac(i) != "52:54:00:d2:" + Hex2(third) + ":" + Hex2(low)
  {
    assert GuestMac(i)[10] == '1' && METADATA_MAC[10] == '0';
    assert GuestMac(i)[0] == 'a';
  }

  // --- battery's host names ---------------------------------------------------

  function BatteryHost(i: nat): string {
    "host-" + Dec(i)
  }

  /** `int(host_name.rsplit("-", 1)[1])`; None where Python raises. */
  function NodeIndex(hostName: string): Option<nat> {
    match AfterLast(hostName, '-')
    case None => None
    case Some(text) => ParseDec(text)
  }

  /** The index comes back from the name bootstrap gave the host. */
  lemma NodeIndexRoundTrip(i: nat)
    ensures NodeIndex(BatteryHost(i)) == Some(i)
  {
    assert BatteryHost(i) == "host" + ['-'] + Dec(i);
    SplitLast("host", '-', Dec(i));
    ParseUndoesDec(i);
  }

  /** Addresses of a run's nodes are distinct. */
  lemma NodeAddressesDistinct(subnet: string, i: nat, j: nat)
    requires IpFor(subnet, i) == IpFor(subnet, j)
    ensures i == j
  {
    assert IpFor(subnet, i)[|subnet| + 1..] == Dec(10 + i);
    assert IpFor(subnet, j)[|subnet| + 1..] == Dec(10 + j);
    DecInjective(10 + i, 10 + j);
  }
}
