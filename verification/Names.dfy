/** Names of libvirt objects, and the prefix matchers that decide who owns one. */
module Names {
  import opened Text

  const PREFIX := "lm-acceptance-"
  const BASE_PREFIX := "lm-acceptance-base-"
  const HOST := "-host"

  function Tag(id: string): string {
    PREFIX + id
  }

  function NodeName(id: string, i: nat): string {
    Tag(id) + HOST + Dec(i)
  }

  function OverlayName(id: string, i: nat): string {
    NodeName(id, i) + ".qcow2"
  }

  function ConsoleName(id: string, i: nat): string {
    NodeName(id, i) + "-console.log"
  }

  /** Every name a run gives to a network, domain or volume. */
  ghost predicate NameOf(id: string, name: string) {
    || name == Tag(id)
    || exists i: nat :: name == NodeName(id, i) || name == OverlayName(id, i) || name == ConsoleName(id, i)
  }

  /** The matcher of `destroy_run` for one run. */
  predicate BelongsTo(tag: string, name: string) {
    name == tag || tag + HOST <= name
  }

  /** The matcher of `sweep`. */
  predicate Swept(name: string) {
    PREFIX <= name
  }

  /** Neither id is the other, nor the other followed by "-host". */
  predicate Isolated(r: string, s: string) {
    r != s && !(r + HOST <= s) && !(s + HOST <= r)
  }

  /** What configuration loading demands of a run id on the libvirt backend, as far as the
      names depend on it. */
  predicate LegalId(id: string) {
    id != [] && !("base" <= id)
  }

  /** A base image volume, as opposed to its marker. */
  predicate IsBase(b: string) {
    BASE_PREFIX <= b && EndsWith(b, ".qcow2")
  }

  function BaseVolumeName(date: string, sha: string): string {
    BASE_PREFIX + date + "-" + (if |sha| <= 8 then sha else sha[..8]) + ".qcow2"
  }

  function Marker(b: string): string {
    b + ".ok"
  }

  // --- a run's own names ------------------------------------------------------

  /** Teardown misses nothing: both matchers accept every name the run can create. */
  lemma OwnNamesMatched(id: string, name: string)
    requires NameOf(id, name)
    ensures BelongsTo(Tag(id), name)
    ensures Swept(name)
  {
    if name != Tag(id) {
      var i: nat :| name == NodeName(id, i) || name == OverlayName(id, i) || name == ConsoleName(id, i);
      var stem := Tag(id) + HOST;
      assert stem <= stem + Dec(i) <= name;
      assert PREFIX <= stem;
    }
  }

  /** Whatever a run's matcher accepts, a sweep accepts. */
  lemma MatchedIsSwept(id: string, name: string)
    requires BelongsTo(Tag(id), name)
    ensures Swept(name)
  {
    assert PREFIX <= Tag(id) <= Tag(id) + HOST;
  }

  /** The names as they are spelled. */
  lemma Spelling(sha: string)
    requires |sha| == 64 && sha[..8] == "abababab"
    ensures BaseVolumeName("20260926", sha) == "lm-acceptance-base-20260926-abababab.qcow2"
    ensures Marker(BaseVolumeName("20260926", sha)) == "lm-acceptance-base-20260926-abababab.qcow2.ok"
    ensures Tag("at-1") == "lm-acceptance-at-1" && NodeName("at-1", 0) == "lm-acceptance-at-1-host0"
    ensures OverlayName("at-1", 0) == "lm-acceptance-at-1-host0.qcow2"
    ensures ConsoleName("at-1", 0) == "lm-acceptance-at-1-host0-console.log"
  {
    assert Dec(0) == "0";
  }

  // --- two runs ---------------------------------------------------------------

  /** "-host" has no self-overlap: two occurrences starting at most four apart coincide. */
  lemma HostDoesNotOverlap(n: string, i: nat, j: nat)
    requires i <= j < i + 5 && j + 5 <= |n|
    requires n[i..i + 5] == HOST && n[j..j + 5] == HOST
    ensures i == j
  {
    assert n[j] == n[j..j + 5][0] == '-';
    assert n[j] == n[i..i + 5][j - i] == HOST[j - i];
  }

  lemma LongerTagStartsWithHost(r: string, s: string, n: string)
    requires |r| < |s| && r + HOST <= n && s + HOST <= n
    ensures r + HOST <= s
  {
    assert n[|r|..|r| + 5] == HOST by { assert (r + HOST)[|r|..] == HOST; }
    assert n[|s|..|s| + 5] == HOST by { assert (s + HOST)[|s|..] == HOST; }
    if |s| < |r| + 5 {
      HostDoesNotOverlap(n, |r|, |s|);
    }
    assert s == n[..|s|];
  }

  lemma StripTag(r: string, n: string)
    ensures Tag(r) == n ==> PREFIX <= n && n[|PREFIX|..] == r
    ensures Tag(r) + HOST <= n ==> PREFIX <= n && r + HOST <= n[|PREFIX|..]
  {
    if Tag(r) == n {
      assert n[|PREFIX|..] == r;
    }
    if Tag(r) + HOST <= n {
      assert Tag(r) + HOST == PREFIX + (r + HOST);
      assert PREFIX <= Tag(r) + HOST;
      assert n[|PREFIX|..][..|r + HOST|] == r + HOST;
    }
  }

  lemma SharedNameNotIsolated(r: string, s: string, n: string)
    requires BelongsTo(Tag(r), n) && BelongsTo(Tag(s), n)
    ensures !Isolated(r, s)
  {
    StripTag(r, n);
    StripTag(s, n);
    var m := n[|PREFIX|..];
    if m != r && m != s {
      if |r| < |s| {
        LongerTagStartsWithHost(r, s, m);
      } else if |s| < |r| {
        LongerTagStartsWithHost(s, r, m);
      } else {
        assert r == m[..|r|] && s == m[..|s|];
      }
    }
  }

  /** Matchers of isolated runs accept no name in common, whoever made that name. */
  lemma MatchersDisjoint(r: string, s: string, n: string)
    requires Isolated(r, s)
    ensures !(BelongsTo(Tag(r), n) && BelongsTo(Tag(s), n))
  {
    if BelongsTo(Tag(r), n) && BelongsTo(Tag(s), n) {
      SharedNameNotIsolated(r, s, n);
    }
  }

  /** Isolation is exact: no name that either of two runs gives to an object is accepted by
      both matchers, precisely when the ids differ and neither begins with the other followed
      by "-host". Otherwise an object of one of them goes with the other's teardown. */
  lemma IsolationExact(r: string, s: string)
    ensures Isolated(r, s)
            <==> forall n :: NameOf(r, n) || NameOf(s, n) ==> !(BelongsTo(Tag(r), n) && BelongsTo(Tag(s), n))
  {
    assert NameOf(r, Tag(r)) && NameOf(s, Tag(s));
    if Isolated(r, s) {
      forall n ensures !(BelongsTo(Tag(r), n) && BelongsTo(Tag(s), n)) {
        MatchersDisjoint(r, s, n);
      }
    } else if r + HOST <= s {
      assert PREFIX + (r + HOST) == Tag(r) + HOST;
      assert BelongsTo(Tag(r), Tag(s)) && BelongsTo(Tag(s), Tag(s));
    } else if s + HOST <= r {
      assert PREFIX + (s + HOST) == Tag(s) + HOST;
      assert BelongsTo(Tag(s), Tag(r)) && BelongsTo(Tag(r), Tag(r));
    } else {
      assert BelongsTo(Tag(r), Tag(s)) && BelongsTo(Tag(s), Tag(s));
    }
  }

  /** Hence no name of one isolated run is accepted by the other's matcher. */
  lemma RunIsolation(r: string, s: string, name: string)
    requires Isolated(r, s) && NameOf(s, name)
    ensures !BelongsTo(Tag(r), name)
  {
    OwnNamesMatched(s, name);
    MatchersDisjoint(r, s, name);
  }

  /** Two legal ids that are not isolated: the teardown of run "a-host1" takes the domain of
      node 1 of run "a". */
  lemma IsolationFailsForLegalIds()
    ensures LegalId("a") && LegalId("a-host1")
    ensures NameOf("a", NodeName("a", 1)) && BelongsTo(Tag("a-host1"), NodeName("a", 1))
  {
    assert "a"[0] != "base"[0] && "a-host1"[0] != "base"[0];
    assert Dec(1) == "1";
    assert NodeName("a", 1) == "lm-acceptance-a-host1" == Tag("a-host1");
  }

  // --- base images ------------------------------------------------------------

  lemma BaseLookalike(id: string, v: string)
    requires BelongsTo(Tag(id), v) && BASE_PREFIX <= v
    ensures id == "base" || "base-" <= id
  {
    StripTag(id, v);
    var m := v[|PREFIX|..];
    assert "base-" <= m by { assert BASE_PREFIX[|PREFIX|..] == "base-"; }
    if m != id {
      assert m[|id|] == (id + HOST)[|id|] == '-';
      assert id == m[..|id|];
      if |id| < 5 {
        assert m[|id|] == "base-"[|id|];
      }
    }
  }

  /** A name accepted by a run's matcher looks like a base image exactly for the run id
      "base" and those beginning with "base-". */
  lemma BaseClashExact(id: string)
    ensures (exists v :: BelongsTo(Tag(id), v) && BASE_PREFIX <= v) <==> id == "base" || "base-" <= id
  {
    assert BASE_PREFIX == PREFIX + "base-";
    if id == "base" {
      assert BASE_PREFIX <= Tag(id) + HOST;
      assert BelongsTo(Tag(id), Tag(id) + HOST);
    } else if "base-" <= id {
      assert BASE_PREFIX <= Tag(id);
      assert BelongsTo(Tag(id), Tag(id));
    }
    forall v | BelongsTo(Tag(id), v) && BASE_PREFIX <= v ensures id == "base" || "base-" <= id {
      BaseLookalike(id, v);
    }
  }

  /** So for a legal id the base-image filter of teardown skips nothing of the run. */
  lemma OwnVolumesAreNotBase(id: string, v: string)
    requires LegalId(id) && BelongsTo(Tag(id), v)
    ensures !(BASE_PREFIX <= v)
  {
    assert "base" <= "base-";
    BaseClashExact(id);
  }

  /** Base volumes and markers never share a name, and a marker has one owner. */
  lemma MarkersDistinct(b: string, c: string)
    requires IsBase(b) && IsBase(c)
    ensures b != Marker(c)
    ensures Marker(b) == Marker(c) ==> b == c
    ensures BASE_PREFIX <= Marker(b)
  {
    assert b[|b| - 1] == b[|b| - 6..][5] == '2';
    assert Marker(c)[|Marker(c)| - 1] == 'k';
    assert Marker(b)[..|b|] == b && Marker(c)[..|c|] == c;
  }

  lemma BaseVolumeNameIsBase(date: string, sha: string)
    ensures IsBase(BaseVolumeName(date, sha))
  {
    var b := BaseVolumeName(date, sha);
    assert b[|b| - 6..] == ".qcow2";
  }

  /** A base volume's name tells its date and the first eight digits of its checksum, and nothing
      else: images that agree in both share a name. */
  lemma BaseVolumeNameExact(date: string, sha: string, day: string, sum: string)
    requires |sha| >= 8 && |sum| >= 8
    ensures BaseVolumeName(date, sha) == BaseVolumeName(day, sum) <==> date == day && sha[..8] == sum[..8]
  {
    var a, b := BaseVolumeName(date, sha), BaseVolumeName(day, sum);
    var n, m := |BASE_PREFIX| + |date|, |BASE_PREFIX| + |day|;
    assert a[|BASE_PREFIX|..n] == date && a[n + 1..n + 9] == sha[..8];
    assert b[|BASE_PREFIX|..m] == day && b[m + 1..m + 9] == sum[..8];
  }
}
