/** Teardowns inside the base-image protocol: whatever a teardown matches and however its
    commands fare, what it does to the pool is a sequence of the unlocked steps the protocol
    allows for, so it cannot harm a published image. */
module TeardownSteps {
  import opened Names
  import opened Storage
  import opened BaseImage
  import opened BaseImageLimits
  import T = Teardown

  predicate Unlocked(steps: seq<Step>) {
    forall k :: 0 <= k < |steps| ==> !steps[k].OfRun?
  }

  lemma {:induction false} DeletionsAreSteps(env: Env, s: Sys, gone: set<string>) returns (steps: seq<Step>)
    requires gone <= s.pool.listed && forall v :: v in gone ==> !(BASE_PREFIX <= v)
    ensures Unlocked(steps)
    ensures Run(env, s, steps) == s.(pool := Pool(s.pool.disk - gone, s.pool.listed - gone))
    decreases |gone|
  {
    if gone == {} {
      steps := [];
      assert s.pool.disk - gone == s.pool.disk && s.pool.listed - gone == s.pool.listed;
    } else {
      var v :| v in gone;
      var t := Next(env, s, Remove(v));
      var rest := DeletionsAreSteps(env, t, gone - {v});
      assert t.pool.disk - (gone - {v}) == s.pool.disk - gone;
      assert t.pool.listed - (gone - {v}) == s.pool.listed - gone;
      steps := [Remove(v)] + rest;
    }
  }

  lemma TeardownIsSteps(env: Env, s: Sys, hv: T.Hv, owns: T.Matcher, fate: T.Fates) returns (steps: seq<Step>)
    requires hv.pool == s.pool
    ensures Unlocked(steps)
    ensures Run(env, s, steps) == s.(pool := T.After(hv, owns, fate).pool)
  {
    var refreshed := T.RefreshesPool(hv.active, fate);
    var first: seq<Step> := if refreshed then [Refresh] else [];
    var t := Run(env, s, first);
    assert t == if refreshed then s.(pool := s.pool.Refresh()) else s by {
      if refreshed { assert Run(env, s, first) == Run(env, Next(env, s, Refresh), []); }
    }
    var vols := if T.RemovesVolumes(hv.active, fate) then T.GoneVolumes(hv.pool.disk.Keys, owns, fate) else {};
    var rest := DeletionsAreSteps(env, t, vols);
    RunConcat(env, s, first, rest);
    steps := first + rest;
  }

  /** No teardown or sweep, in any reachable state, deletes or changes a marked base volume or
      its marker, even with a matcher that accepts their names. */
  lemma TeardownSparesPublished(env: Env, s: Sys, hv: T.Hv, owns: T.Matcher, fate: T.Fates, b: string)
    requires Inv(env, s) && hv.pool == s.pool && IsBase(b) && Published(s.pool, b)
    ensures Untouched(s.pool, T.After(hv, owns, fate).pool, b)
    ensures Inv(env, s.(pool := T.After(hv, owns, fate).pool))
  {
    var steps := TeardownIsSteps(env, s, hv, owns, fate);
    PublishedStays(env, s, steps, b);
    RunKeepsInv(env, s, steps);
  }
}
