/** The volumes a DigitalOcean teardown takes: it matches them by substring, unlike libvirt's
    matcher. */
module CloudVolumes {
  import opened Text
  import opened Names
  import opened Cloud

  const POOL := "-pool"

  /** The volume of a run's node. */
  function PoolVolumeName(id: string, i: nat): string {
    NodeName(id, i) + POOL
  }

  /** Teardown of run r takes, by its name, the volume of node i of run s. */
  predicate Takes(r: string, s: string, i: nat) {
    Contains(PoolVolumeName(s, i), Tag(r))
  }

  // --- one volume -------------------------------------------------------------

  /** The text occurs at that place. */
  predicate OccursAt(name: string, text: string, p: nat) {
    p + |text| <= |name| && name[p..p + |text|] == text
  }

  lemma ContainsAt(name: string, text: string)
    ensures Contains(name, text) <==> exists p: nat :: OccursAt(name, text, p)
  {
    if Contains(name, text) {
      var i :| 0 <= i <= |name| && text <= name[i..];
      assert OccursAt(name, text, i);
    }
    if p: nat :| OccursAt(name, text, p) {
      assert name[p..][..|text|] == text;
      assert text <= name[p..];
    }
  }

  /** No other letter of the prefix is its first one, so it does not overlap itself. */
  lemma PrefixBegins(r: string, stem: string, p: nat)
    requires OccursAt(PREFIX + stem, Tag(r), p) && p < |PREFIX|
    ensures p == 0
  {
    assert Tag(r)[0] == 'l';
    assert (PREFIX + stem)[p] == (PREFIX + stem)[p..p + |Tag(r)|][0];
    assert PREFIX == ['l', 'm', '-', 'a', 'c', 'c', 'e', 'p', 't', 'a', 'n', 'c', 'e', '-'];
  }

  /** Without the prefix, the volume of a node. */
  function Stem(s: string, i: nat): string {
    s + HOST + Dec(i) + POOL
  }

  lemma NameIsPrefixAndStem(s: string, i: nat)
    ensures PoolVolumeName(s, i) == PREFIX + Stem(s, i)
  {
  }

  /** An occurrence of a tag behind the prefix starts at once, or is wholly behind it. */
  lemma TagBehindPrefix(r: string, stem: string, p: nat)
    requires OccursAt(PREFIX + stem, Tag(r), p)
    ensures r <= stem || (p >= |PREFIX| && OccursAt(stem, Tag(r), p - |PREFIX|))
  {
    var name, tag := PREFIX + stem, Tag(r);
    if p < |PREFIX| {
      PrefixBegins(r, stem, p);
      assert tag[|PREFIX|..] == r;
      assert name[..|tag|][|PREFIX|..] == stem[..|r|];
    } else {
      assert name[p..p + |tag|] == stem[p - |PREFIX|..p - |PREFIX| + |tag|];
    }
  }

  lemma TagInName(r: string, stem: string)
    requires r <= stem || Contains(stem, Tag(r))
    ensures Contains(PREFIX + stem, Tag(r))
  {
    var tag := Tag(r);
    if r <= stem {
      assert PREFIX + stem == tag + stem[|r|..];
      assert tag <= (PREFIX + stem)[0..];
    } else {
      var i :| 0 <= i <= |stem| && tag <= stem[i..];
      assert (PREFIX + stem)[|PREFIX| + i..] == stem[i..];
    }
  }

  /** The tag of r is found in the volume's name at its start, or wholly behind the prefix. */
  lemma VolumeTakenExact(r: string, s: string, i: nat)
    ensures Takes(r, s, i) <==> r <= Stem(s, i) || Contains(Stem(s, i), Tag(r))
  {
    NameIsPrefixAndStem(s, i);
    var stem := Stem(s, i);
    if Contains(PREFIX + stem, Tag(r)) {
      ContainsAt(PREFIX + stem, Tag(r));
      var p: nat :| OccursAt(PREFIX + stem, Tag(r), p);
      TagBehindPrefix(r, stem, p);
      ContainsAt(stem, Tag(r));
    }
    if r <= stem || Contains(stem, Tag(r)) {
      TagInName(r, stem);
    }
  }

  // --- all volumes of a run ---------------------------------------------------

  /** The decimal rendering of some number. */
  predicate IsNumber(d: string) {
    && d != []
    && (forall k :: 0 <= k < |d| ==> '0' <= d[k] <= '9')
    && (d[0] == '0' ==> |d| == 1)
  }

  lemma {:induction false} DecIsNumber(n: nat)
    ensures IsNumber(Dec(n)) && (Dec(n)[0] == '0' ==> n == 0)
  {
    if n >= 10 {
      DecIsNumber(n / 10);
      assert Dec(n)[0] == Dec(n / 10)[0];
    }
  }

  lemma {:induction false} NumberIsDec(d: string) returns (n: nat)
    requires IsNumber(d)
    ensures Dec(n) == d && (n == 0 ==> d == "0")
    decreases |d|
  {
    var digit := d[|d| - 1] as nat - '0' as nat;
    if |d| == 1 {
      n := digit;
    } else {
      var high := NumberIsDec(d[..|d| - 1]);
      assert high != 0;
      n := 10 * high + digit;
      assert d == d[..|d| - 1] + [d[|d| - 1]];
    }
  }

  /** The tag splits into the end of `head`, a number, and the start of "-pool". */
  predicate SplitsAt(head: string, tag: string, j: nat, k: nat) {
    0 < j < k <= |tag| && EndsWith(head, tag[..j]) && IsNumber(tag[j..k]) && tag[k..] <= POOL
  }

  /** Run ids r and s such that r's teardown takes a volume of s: the tag of r occurs in what all
      of s's volume names begin with, or reaches from there into the node number or beyond. */
  predicate VolumeClash(r: string, s: string) {
    var head := Tag(s) + HOST;
    Contains(head, Tag(r)) || exists j: nat, k: nat :: j <= |Tag(r)| && k <= |Tag(r)| && SplitsAt(head, Tag(r), j, k)
  }

  /** The volumes of s are safe from the teardown of r, whatever their node numbers, exactly when
      the ids do not clash. */
  lemma VolumesIsolatedExact(r: string, s: string)
    ensures (forall i: nat :: !Takes(r, s, i)) <==> !VolumeClash(r, s)
  {
    forall i: nat | Takes(r, s, i) ensures VolumeClash(r, s) {
      TakenMeansClash(r, s, i);
    }
    if VolumeClash(r, s) {
      var _ := ClashTakes(r, s);
    }
  }

  lemma TakenMeansClash(r: string, s: string, i: nat)
    requires Takes(r, s, i)
    ensures VolumeClash(r, s)
  {
    var head, number, tag := Tag(s) + HOST, Dec(i), Tag(r);
    var name := PoolVolumeName(s, i);
    assert name == head + number + POOL;
    ContainsAt(name, tag);
    var p: nat :| OccursAt(name, tag, p);
    DecIsNumber(i);
    assert tag[0] == 'l' && |tag| > 1;
    if p + |tag| <= |head| {
      assert head[p..p + |tag|] == name[p..p + |tag|];
      assert OccursAt(head, tag, p);
      ContainsAt(head, tag);
    } else if p < |head| {
      OccurrenceSplits(head, number, tag, p);
    } else {
      assert false;
    }
  }

  lemma SliceOfSlice(s: string, p: nat, n: nat, j: nat, k: nat)
    requires j <= k <= n && p + n <= |s|
    ensures s[p..p + n][j..k] == s[p + j..p + k]
  {
    var t := s[p..p + n];
    forall i | 0 <= i < k - j ensures t[j..k][i] == s[p + j..p + k][i] {
      assert t[j..k][i] == t[j + i] == s[p + (j + i)];
    }
  }

  /** An occurrence that starts in the head and goes on behind it. */
  lemma OccurrenceSplits(head: string, number: string, tag: string, p: nat)
    requires OccursAt(head + number + POOL, tag, p) && p < |head| < p + |tag| && IsNumber(number)
    ensures exists j: nat, k: nat :: j <= |tag| && k <= |tag| && SplitsAt(head, tag, j, k)
  {
    var name := head + number + POOL;
    var j := |head| - p;
    var k := if j + |number| < |tag| then j + |number| else |tag|;
    SliceOfSlice(name, p, |tag|, 0, j);
    SliceOfSlice(name, p, |tag|, j, k);
    SliceOfSlice(name, p, |tag|, k, |tag|);
    assert tag[..j] == name[p..p + j] == head[p..];
    assert tag[j..k] == name[p + j..p + k] == number[..k - j];
    if k < |tag| {
      assert name[p + k..] == POOL;
      assert tag[k..] == POOL[..|tag| - k];
    }
    assert SplitsAt(head, tag, j, k);
  }

  lemma ClashTakes(r: string, s: string) returns (i: nat)
    requires VolumeClash(r, s)
    ensures Takes(r, s, i)
  {
    var head, tag := Tag(s) + HOST, Tag(r);
    if Contains(head, tag) {
      i := 0;
      ContainsAt(head, tag);
      var p: nat :| OccursAt(head, tag, p);
      OccursInFront(head, Dec(i) + POOL, tag, p);
      assert PoolVolumeName(s, i) == head + (Dec(i) + POOL);
      ContainsAt(PoolVolumeName(s, i), tag);
    } else {
      var j: nat, k: nat :| j <= |tag| && k <= |tag| && SplitsAt(head, tag, j, k);
      i := NumberIsDec(tag[j..k]);
      SplitOccurs(head, tag[j..k], tag, j, k);
      ContainsAt(PoolVolumeName(s, i), tag);
    }
  }

  lemma OccursInFront(head: string, tail: string, text: string, p: nat)
    requires OccursAt(head, text, p)
    ensures OccursAt(head + tail, text, p)
  {
    assert (head + tail)[p..p + |text|] == head[p..p + |text|];
  }

  lemma SplitOccurs(head: string, number: string, tag: string, j: nat, k: nat)
    requires SplitsAt(head, tag, j, k) && number == tag[j..k]
    ensures OccursAt(head + number + POOL, tag, |head| - j)
  {
    var p := |head| - j;
    assert head[p..] == tag[..j];
    assert tag[k..] == POOL[..|tag| - k];
    assert tag == tag[..j] + tag[j..k] + tag[k..];
    assert head + number + POOL == head[..p] + tag + POOL[|tag| - k..];
  }

  /** In particular, a run whose id begins with another's loses its volumes to the other. */
  lemma VolumesOfLongerIdsMatch(id: string, more: string, i: nat, v: Block)
    requires v.name == PoolVolumeName(id + more, i)
    ensures VolumeMatches(v, Tag(id))
  {
    VolumeTakenExact(id, id + more, i);
    assert Stem(id + more, i) == id + (more + HOST + Dec(i) + POOL);
  }

  /** And neither id need begin with the other. */
  lemma VolumesOfUnrelatedIdsMatch(i: nat)
    ensures Takes("a-host1", "a", 1) && Takes("a", "xlm-acceptance-a", i)
  {
    VolumeTakenExact("a-host1", "a", 1);
    assert Dec(1) == "1";
    assert Stem("a", 1) == "a-host1" + POOL;
    var stem := Stem("xlm-acceptance-a", i);
    assert stem == "x" + Tag("a") + (HOST + Dec(i) + POOL);
    assert OccursAt(stem, Tag("a"), 1);
    ContainsAt(stem, Tag("a"));
    VolumeTakenExact("a", "xlm-acceptance-a", i);
  }
}
