/** Teardown of one tag on DigitalOcean, and the sweep that finds orphaned runs by their tag. */
module Cloud {
  import opened Names

  datatype Firewall = Firewall(id: nat, name: string)
  datatype Droplet = Droplet(id: nat, tags: set<string>)
  datatype Block = Block(id: nat, name: string, tags: set<string>)

  /** A region's default VPC cannot be deleted. */
  datatype Vpc = Vpc(id: nat, name: string, isDefault: bool)

  datatype Account = Account(
    firewalls: set<Firewall>,
    droplets: set<Droplet>,
    volumes: set<Block>,
    vpcs: set<Vpc>,
    tags: set<string>)

  /** `tag in name`, for strings. */
  predicate Contains(name: string, tag: string) {
    exists i :: 0 <= i <= |name| && tag <= name[i..]
  }

  /** The volumes a tag's teardown deletes. */
  predicate VolumeMatches(v: Block, tag: string) {
    Contains(v.name, tag) || tag in v.tags
  }

  /** From a to b only resources of the tag went, and none came. */
  ghost predicate Shrinks(a: Account, b: Account, tag: string) {
    && b.firewalls <= a.firewalls && (forall x :: x in a.firewalls - b.firewalls ==> x.name == tag)
    && b.droplets <= a.droplets && (forall x :: x in a.droplets - b.droplets ==> tag in x.tags)
    && b.volumes <= a.volumes && (forall x :: x in a.volumes - b.volumes ==> VolumeMatches(x, tag))
    && b.vpcs <= a.vpcs && (forall x :: x in a.vpcs - b.vpcs ==> x.name == tag && !x.isDefault)
    && b.tags == a.tags
  }

  /** Nothing of the tag is left but an undeletable default VPC. */
  ghost predicate TornDown(a: Account, tag: string) {
    && (forall x :: x in a.firewalls ==> x.name != tag)
    && (forall x :: x in a.droplets ==> tag !in x.tags)
    && (forall x :: x in a.volumes ==> !VolumeMatches(x, tag))
    && (forall x :: x in a.vpcs && x.name == tag ==> x.isDefault)
  }

  ghost predicate OneVpcPerName(a: Account) {
    forall x, y :: x in a.vpcs && y in a.vpcs && x.name == y.name ==> x == y
  }

  /** Droplets carry only tags that exist. */
  ghost predicate TagsExist(a: Account) {
    forall x :: x in a.droplets ==> x.tags <= a.tags
  }

  class Client {
    var firewalls: set<Firewall>
    var droplets: set<Droplet>
    var volumes: set<Block>
    var vpcs: set<Vpc>
    var tags: set<string>
    ghost var failed: multiset<string>   // of each failed request, the tag it was made for

    constructor (a: Account)
      ensures State() == a && failed == multiset{}
    {
      firewalls, droplets, volumes, vpcs, tags := a.firewalls, a.droplets, a.volumes, a.vpcs, a.tags;
      failed := multiset{};
    }

    function State(): Account
      reads this
    {
      Account(firewalls, droplets, volumes, vpcs, tags)
    }

    /** How a request made for a tag fares; one reported as failed may have been carried out. */
    method Request(tag: string) returns (ok: bool, done: bool)
      modifies `failed
      ensures ok ==> done
      ensures failed == if ok then old(failed) else old(failed) + multiset{tag}
    {
      ok, done := true, true;
      if * {
        ok, failed := false, failed + multiset{tag};
        if * { done := false; }
      }
    }
  }

  /** Requests made for one tag failed, at least one if the operation did. */
  ghost predicate FailedFor(before: multiset<string>, after: multiset<string>, tag: string, ok: bool) {
    && (forall t :: if t == tag then after[t] >= before[t] else after[t] == before[t])
    && (!ok ==> after[tag] > before[tag])
  }

  // --- one attempt of each operation ------------------------------------------

  method DeleteFirewall(c: Client, x: Firewall, tag: string) returns (ok: bool)
    modifies c`firewalls, c`failed
    ensures c.firewalls == old(c.firewalls) || c.firewalls == old(c.firewalls) - {x}
    ensures ok ==> c.firewalls == old(c.firewalls) - {x}
    ensures FailedFor(old(c.failed), c.failed, tag, ok)
  {
    var done;
    ok, done := c.Request(tag);
    if done { c.firewalls := c.firewalls - {x}; }
  }

  /** A missing tag means there is nothing to destroy: that error counts as success. A request
      that fails may have destroyed some droplets. */
  method DestroyDroplets(c: Client, tag: string) returns (ok: bool)
    requires TagsExist(c.State())
    modifies c`droplets, c`failed
    ensures c.droplets <= old(c.droplets) && forall x :: x in old(c.droplets) - c.droplets ==> tag in x.tags
    ensures ok ==> forall x :: x in c.droplets ==> tag !in x.tags
    ensures FailedFor(old(c.failed), c.failed, tag, ok)
  {
    if tag !in c.tags { return true; }
    var done;
    ok, done := c.Request(tag);
    var spared: set<Droplet> := *;
    if done { c.droplets := set x | x in c.droplets && (tag !in x.tags || (!ok && x in spared)); }
  }

  /** The first volume that cannot be deleted ends the attempt. */
  method DeleteVolumes(c: Client, tag: string) returns (ok: bool)
    modifies c`volumes, c`failed
    ensures c.volumes <= old(c.volumes) && forall x :: x in old(c.volumes) - c.volumes ==> VolumeMatches(x, tag)
    ensures ok ==> forall x :: x in c.volumes ==> !VolumeMatches(x, tag)
    ensures FailedFor(old(c.failed), c.failed, tag, ok)
  {
    var listed, _ := c.Request(tag);
    if !listed { return false; }
    var listing := c.volumes;
    while listing != {}
      invariant c.volumes <= old(c.volumes) && listing <= old(c.volumes)
      invariant forall x :: x in old(c.volumes) - c.volumes ==> VolumeMatches(x, tag)
      invariant forall x :: x in c.volumes && x !in listing ==> !VolumeMatches(x, tag)
      invariant FailedFor(old(c.failed), c.failed, tag, true)
      decreases |listing|
    {
      var x :| x in listing;
      listing := listing - {x};
      if VolumeMatches(x, tag) {
        var done;
        ok, done := c.Request(tag);
        if done { c.volumes := c.volumes - {x}; }
        if !ok { return; }
      }
    }
    return true;
  }

  /** A default VPC ends the attempt too, but as a success. */
  method DeleteVpc(c: Client, tag: string) returns (ok: bool)
    modifies c`vpcs, c`failed
    ensures c.vpcs <= old(c.vpcs) && forall x :: x in old(c.vpcs) - c.vpcs ==> x.name == tag && !x.isDefault
    ensures ok ==> (exists x :: x in c.vpcs && x.name == tag && x.isDefault) || forall x :: x in c.vpcs ==> x.name != tag
    ensures FailedFor(old(c.failed), c.failed, tag, ok)
  {
    var listed, _ := c.Request(tag);
    if !listed { return false; }
    var listing := c.vpcs;
    while listing != {}
      invariant c.vpcs <= old(c.vpcs) && listing <= c.vpcs
      invariant forall x :: x in old(c.vpcs) - c.vpcs ==> x.name == tag && !x.isDefault
      invariant forall x :: x in c.vpcs && x !in listing ==> x.name != tag
      invariant FailedFor(old(c.failed), c.failed, tag, true)
      decreases |listing|
    {
      var x :| x in listing;
      listing := listing - {x};
      if x.name == tag {
        if x.isDefault { return true; }
        var done;
        ok, done := c.Request(tag);
        if done { c.vpcs := c.vpcs - {x}; }
        if !ok { return; }
      }
    }
    return true;
  }

  // --- destroy_tag: each operation retried until it succeeds or its time is up --

  method RetryFirewalls(c: Client, tag: string) returns (ok: bool)
    modifies c`firewalls, c`failed
    ensures c.firewalls <= old(c.firewalls) && forall x :: x in old(c.firewalls) - c.firewalls ==> x.name == tag
    ensures ok ==> forall x :: x in c.firewalls ==> x.name != tag
    ensures FailedFor(old(c.failed), c.failed, tag, ok)
  {
    var listed, _ := c.Request(tag);
    if !listed { return false; }
    var listing := c.firewalls;
    while listing != {}
      invariant c.firewalls <= old(c.firewalls) && listing <= old(c.firewalls)
      invariant forall x :: x in old(c.firewalls) - c.firewalls ==> x.name == tag
      invariant forall x :: x in c.firewalls && x !in listing ==> x.name != tag
      invariant FailedFor(old(c.failed), c.failed, tag, true)
      decreases |listing|
    {
      var x :| x in listing;
      listing := listing - {x};
      if x.name == tag {
        ok := DeleteFirewall(c, x, tag);
        var budget: nat := *;
        while !ok && budget > 0
          invariant c.firewalls <= old(c.firewalls)
          invariant forall y :: y in old(c.firewalls) - c.firewalls ==> y.name == tag
          invariant forall y :: y in c.firewalls && y !in listing && y != x ==> y.name != tag
          invariant ok ==> x !in c.firewalls
          invariant FailedFor(old(c.failed), c.failed, tag, ok)
        {
          ok := DeleteFirewall(c, x, tag);
          budget := budget - 1;
        }
        if !ok { return; }
      }
    }
    return true;
  }

  method RetryDroplets(c: Client, tag: string) returns (ok: bool)
    requires TagsExist(c.State())
    modifies c`droplets, c`failed
    ensures c.droplets <= old(c.droplets) && forall x :: x in old(c.droplets) - c.droplets ==> tag in x.tags
    ensures ok ==> forall x :: x in c.droplets ==> tag !in x.tags
    ensures FailedFor(old(c.failed), c.failed, tag, ok)
  {
    ok := DestroyDroplets(c, tag);
    var budget: nat := *;
    while !ok && budget > 0
      invariant TagsExist(c.State())
      invariant c.droplets <= old(c.droplets) && forall x :: x in old(c.droplets) - c.droplets ==> tag in x.tags
      invariant ok ==> forall x :: x in c.droplets ==> tag !in x.tags
      invariant FailedFor(old(c.failed), c.failed, tag, ok)
    {
      ok := DestroyDroplets(c, tag);
      budget := budget - 1;
    }
  }

  method RetryVolumes(c: Client, tag: string) returns (ok: bool)
    modifies c`volumes, c`failed
    ensures c.volumes <= old(c.volumes) && forall x :: x in old(c.volumes) - c.volumes ==> VolumeMatches(x, tag)
    ensures ok ==> forall x :: x in c.volumes ==> !VolumeMatches(x, tag)
    ensures FailedFor(old(c.failed), c.failed, tag, ok)
  {
    ok := DeleteVolumes(c, tag);
    var budget: nat := *;
    while !ok && budget > 0
      invariant c.volumes <= old(c.volumes) && forall x :: x in old(c.volumes) - c.volumes ==> VolumeMatches(x, tag)
      invariant ok ==> forall x :: x in c.volumes ==> !VolumeMatches(x, tag)
      invariant FailedFor(old(c.failed), c.failed, tag, ok)
    {
      ok := DeleteVolumes(c, tag);
      budget := budget - 1;
    }
  }

  method RetryVpc(c: Client, tag: string) returns (ok: bool)
    modifies c`vpcs, c`failed
    ensures c.vpcs <= old(c.vpcs) && forall x :: x in old(c.vpcs) - c.vpcs ==> x.name == tag && !x.isDefault
    ensures ok ==> (exists x :: x in c.vpcs && x.name == tag && x.isDefault) || forall x :: x in c.vpcs ==> x.name != tag
    ensures FailedFor(old(c.failed), c.failed, tag, ok)
  {
    ok := DeleteVpc(c, tag);
    var budget: nat := *;
    while !ok && budget > 0
      invariant c.vpcs <= old(c.vpcs) && forall x :: x in old(c.vpcs) - c.vpcs ==> x.name == tag && !x.isDefault
      invariant ok ==> (exists x :: x in c.vpcs && x.name == tag && x.isDefault) || forall x :: x in c.vpcs ==> x.name != tag
      invariant FailedFor(old(c.failed), c.failed, tag, ok)
    {
      ok := DeleteVpc(c, tag);
      budget := budget - 1;
    }
  }

  /** In this order: a droplet goes only when no firewall of the tag is left, a volume only when
      no droplet is, which might have it attached, and a VPC only when nothing else is. */
  ghost predicate InOrder(a: Account, b: Account, tag: string) {
    && (b.droplets != a.droplets || b.volumes != a.volumes || b.vpcs != a.vpcs ==> forall x :: x in b.firewalls ==> x.name != tag)
    && (b.volumes != a.volumes || b.vpcs != a.vpcs ==> forall x :: x in b.droplets ==> tag !in x.tags)
    && (b.vpcs != a.vpcs ==> forall x :: x in b.volumes ==> !VolumeMatches(x, tag))
  }

  /** Firewalls, droplets, volumes, VPC; the first operation that runs out of time raises. */
  method DestroyTag(c: Client, tag: string) returns (ok: bool)
    requires TagsExist(c.State()) && OneVpcPerName(c.State())
    modifies c
    ensures Shrinks(old(c.State()), c.State(), tag)
    ensures InOrder(old(c.State()), c.State(), tag)
    ensures ok ==> TornDown(c.State(), tag)
    ensures FailedFor(old(c.failed), c.failed, tag, ok)
  {
    ok := RetryFirewalls(c, tag);
    if !ok { return; }
    ok := RetryDroplets(c, tag);
    if !ok { return; }
    ok := RetryVolumes(c, tag);
    if !ok { return; }
    ok := RetryVpc(c, tag);
  }

  // --- reap_tag and the sweep -------------------------------------------------

  /** The tag goes last, and only after everything it leads to. */
  method ReapTag(c: Client, tag: string) returns (deleted: bool)
    requires TagsExist(c.State()) && OneVpcPerName(c.State())
    modifies c
    ensures Shrinks(old(c.State()), c.State().(tags := old(c.tags)), tag)
    ensures InOrder(old(c.State()), c.State(), tag)
    ensures c.tags == old(c.tags) || (c.tags == old(c.tags) - {tag} && TornDown(c.State(), tag))
    ensures deleted ==> tag !in c.tags
    ensures FailedFor(old(c.failed), c.failed, tag, deleted)
  {
    var ok := DestroyTag(c, tag);
    if !ok { return false; }
    var done;
    deleted, done := c.Request(tag);
    if done { c.tags := c.tags - {tag}; }
  }

  /** Every resource of a run, default VPCs apart, is still reachable from a tag the next sweep
      will list. */
  ghost predicate Rediscoverable(a: Account) {
    forall tag :: PREFIX <= tag && tag !in a.tags ==>
      && (forall x :: x in a.firewalls ==> x.name != tag)
      && (forall x :: x in a.droplets ==> tag !in x.tags)
      && (forall x :: x in a.volumes ==> tag !in x.tags)
      && (forall x :: x in a.vpcs && x.name == tag ==> x.isDefault)
  }

  ghost predicate Consistent(a: Account) {
    TagsExist(a) && OneVpcPerName(a) && Rediscoverable(a)
  }

  function Orphans(tags: set<string>): set<string> {
    set t | t in tags && PREFIX <= t
  }

  /** No tag of the suite is left, nor anything but default VPCs that such a tag would name. */
  ghost predicate OnlyDefaultsLeft(a: Account) {
    && (forall t :: t in a.tags ==> !(PREFIX <= t))
    && (forall x :: x in a.firewalls ==> !(PREFIX <= x.name))
    && (forall x, t :: x in a.droplets && t in x.tags ==> !(PREFIX <= t))
    && (forall x, t :: x in a.volumes && t in x.tags ==> !(PREFIX <= t))
    && (forall x :: x in a.vpcs && PREFIX <= x.name ==> x.isDefault)
  }

  /** One of the suite's tags that leads to something. */
  predicate SuiteTag(a: Account, t: string) {
    t in a.tags && PREFIX <= t
  }

  ghost predicate SuiteDroplet(a: Account, x: Droplet) {
    exists t :: SuiteTag(a, t) && t in x.tags
  }

  ghost predicate SuiteVolume(a: Account, x: Block) {
    exists t :: SuiteTag(a, t) && (Contains(x.name, t) || t in x.tags)
  }

  /** Nothing appeared, and all that went was the suite's, by a tag or name it bore. */
  ghost predicate OnlyTheSuitesWent(a: Account, b: Account) {
    && b.tags <= a.tags && (forall t :: t in a.tags && t !in b.tags ==> PREFIX <= t)
    && b.firewalls <= a.firewalls && (forall x :: x in a.firewalls && x !in b.firewalls ==> SuiteTag(a, x.name))
    && b.droplets <= a.droplets && (forall x :: x in a.droplets && x !in b.droplets ==> SuiteDroplet(a, x))
    && b.volumes <= a.volumes && (forall x :: x in a.volumes && x !in b.volumes ==> SuiteVolume(a, x))
    && b.vpcs <= a.vpcs && (forall x :: x in a.vpcs && x !in b.vpcs ==> SuiteTag(a, x.name) && !x.isDefault)
  }

  /** What sweeping may do to an account, whatever fails: only what is the suite's goes, a tag
      that disappears has been torn down, and no resource is left without a tag to find it by. */
  ghost predicate SweptInto(a: Account, b: Account) {
    && Consistent(b)
    && OnlyTheSuitesWent(a, b)
    && (forall t :: t in a.tags - b.tags ==> TornDown(b, t))
  }

  method ReapNext(c: Client, tag: string, ghost start: Account) returns (deleted: bool)
    requires SweptInto(start, c.State()) && SuiteTag(start, tag)
    modifies c
    ensures SweptInto(start, c.State())
    ensures c.tags <= old(c.tags) && (deleted ==> tag !in c.tags)
    ensures FailedFor(old(c.failed), c.failed, tag, deleted)
  {
    ghost var before := c.State();
    deleted := ReapTag(c, tag);
    SweepStep(start, before, c.State(), tag);
  }

  /** One sweep. Whatever fails, every listed tag gets its turn: one that is still there has had
      a request of its own fail in this sweep, and any other has been torn down. A sweep
      without failures leaves nothing of the suite but default VPCs. */
  method Sweep(c: Client)
    requires Consistent(c.State())
    modifies c
    ensures SweptInto(old(c.State()), c.State())
    ensures old(c.failed) <= c.failed
    ensures forall t :: t in Orphans(old(c.tags)) ==>
              if t in c.tags then c.failed[t] > old(c.failed)[t] else TornDown(c.State(), t)
    ensures c.failed == old(c.failed) ==> OnlyDefaultsLeft(c.State())
  {
    ghost var start := c.State();
    var listing := Orphans(c.tags);
    while listing != {}
      invariant listing <= Orphans(start.tags)
      invariant SweptInto(start, c.State())
      invariant old(c.failed) <= c.failed
      invariant forall t :: t in Orphans(start.tags) - listing && t in c.tags ==> c.failed[t] > old(c.failed)[t]
      decreases |listing|
    {
      var tag :| tag in listing;
      var _ := ReapNext(c, tag, start);
      listing := listing - {tag};
    }
    if c.failed == old(c.failed) {
      AllTagsGone(start, c.State());
    }
  }

  lemma AllTagsGone(a: Account, b: Account)
    requires SweptInto(a, b)
    requires forall t :: t in Orphans(a.tags) ==> t !in b.tags
    ensures OnlyDefaultsLeft(b)
  {
    forall t | t in b.tags ensures !(PREFIX <= t) {
      assert t in a.tags && t !in Orphans(a.tags);
    }
    forall x | x in b.firewalls ensures !(PREFIX <= x.name) { assert x.name in b.tags || x.name !in b.tags; }
    forall x, t | x in b.volumes && t in x.tags ensures !(PREFIX <= t) { assert t in b.tags || t !in b.tags; }
    forall x | x in b.vpcs && PREFIX <= x.name ensures x.isDefault { assert x.name !in b.tags; }
  }

  /** Any number of sweeps. A tag that outlasts them has failed anew in each. */
  method Sweeps(c: Client, n: nat)
    requires Consistent(c.State())
    modifies c
    ensures SweptInto(old(c.State()), c.State())
    ensures old(c.failed) <= c.failed
    ensures forall t :: t in Orphans(c.tags) ==> c.failed[t] >= old(c.failed)[t] + n
    ensures n > 0 && c.failed == old(c.failed) ==> OnlyDefaultsLeft(c.State())
  {
    for i := 0 to n
      invariant SweptInto(old(c.State()), c.State())
      invariant old(c.failed) <= c.failed
      invariant forall t :: t in Orphans(c.tags) ==> c.failed[t] >= old(c.failed)[t] + i
      invariant i > 0 && c.failed == old(c.failed) ==> OnlyDefaultsLeft(c.State())
    {
      ghost var before, failures := c.State(), c.failed;
      Sweep(c);
      SweptTransitive(old(c.State()), before, c.State());
      forall t | t in Orphans(c.tags) ensures c.failed[t] >= old(c.failed)[t] + i + 1 {
        assert t in Orphans(before.tags) && c.failed[t] > failures[t];
      }
    }
  }

  lemma SweepStep(a: Account, b: Account, c: Account, tag: string)
    requires SweptInto(a, b) && SuiteTag(a, tag)
    requires Shrinks(b, c.(tags := b.tags), tag)
    requires c.tags == b.tags || (c.tags == b.tags - {tag} && TornDown(c, tag))
    ensures SweptInto(a, c)
  {
    forall t | t in a.tags - c.tags ensures TornDown(c, t) {
      if t != tag || t !in b.tags { assert TornDown(b, t); }
    }
    OneTagWent(a, b, c, tag);
  }

  /** Of an account from which only the suite's has gone, more goes for one of its tags. */
  lemma OneTagWent(a: Account, b: Account, c: Account, tag: string)
    requires OnlyTheSuitesWent(a, b) && SuiteTag(a, tag)
    requires Shrinks(b, c.(tags := b.tags), tag) && b.tags - {tag} <= c.tags <= b.tags
    ensures OnlyTheSuitesWent(a, c)
  {
    forall x | x in b.droplets && x !in c.droplets ensures SuiteDroplet(a, x) {
      assert x in b.droplets - c.droplets;
    }
    forall x | x in b.volumes && x !in c.volumes ensures SuiteVolume(a, x) {
      assert x in b.volumes - c.volumes && VolumeMatches(x, tag);
    }
    forall x | x in b.firewalls && x !in c.firewalls ensures x.name == tag { assert x in b.firewalls - c.firewalls; }
    forall x | x in b.vpcs && x !in c.vpcs ensures x.name == tag && !x.isDefault { assert x in b.vpcs - c.vpcs; }
  }

  lemma WentTransitive(a: Account, b: Account, c: Account)
    requires OnlyTheSuitesWent(a, b) && OnlyTheSuitesWent(b, c)
    ensures OnlyTheSuitesWent(a, c)
  {
    forall x | SuiteDroplet(b, x) ensures SuiteDroplet(a, x) {
      var t :| SuiteTag(b, t) && t in x.tags;
      assert SuiteTag(a, t);
    }
    forall x | SuiteVolume(b, x) ensures SuiteVolume(a, x) {
      var t :| SuiteTag(b, t) && (Contains(x.name, t) || t in x.tags);
      assert SuiteTag(a, t);
    }
  }

  lemma SweptTransitive(a: Account, b: Account, c: Account)
    requires SweptInto(a, b) && SweptInto(b, c)
    ensures SweptInto(a, c)
  {
    WentTransitive(a, b, c);
    forall t | t in a.tags - c.tags ensures TornDown(c, t) {
      if t in b.tags {
        assert t in b.tags - c.tags;
      } else {
        assert TornDown(b, t);
      }
    }
  }
}
