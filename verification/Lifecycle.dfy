/** The provision/teardown lifecycle around a suite on the libvirt backend. */
module Lifecycle {
  import opened Wrappers
  import opened Names
  import opened Teardown
  import opened Hypervisor
  import opened Provision

  /** What the world answers: how the body of the `with` ends, what `failed()` says, how log
      collection ends, and how each collection and teardown fares. */
  datatype Script = Script(
    body: Status,
    failed: Result<bool>,
    logs: Status,
    provisionConsoles: Course,
    provisionCleanup: Course,
    consoles: Course,
    teardown: Course)

  /** Teardown is not reached: the body or failed() raised, or an interrupt came while evidence
      was collected (any Exception is swallowed there, but an interrupt is not one), or the
      failed run is kept. */
  predicate SkipsTeardown(cfg: Config, x: Script) {
    || x.body.Failed?
    || x.failed.Raised?
    || (x.failed.value && (x.logs == Failed(Interrupt) || x.consoles.interrupted || cfg.keep))
  }

  /** What is recorded from the yield up to a teardown. */
  ghost predicate EvidenceOf(x: Script, evidence: seq<Event>) {
    && Quiet([], evidence)
    && if x.body.Failed? || x.failed.Raised? || !x.failed.value then evidence == []
       else if x.logs == Failed(Interrupt) then evidence == [CollectingLogs]
       else [CollectingLogs, CollectingConsoles] <= evidence
  }

  /** Some object of the run exists. */
  ghost predicate Survives(s: Hv, id: string) {
    exists o :: Present(s, o) && BelongsTo(Tag(id), o.name)
  }

  /** `logs.collect` of a failed run. */
  method CollectLogs(hv: Hypervisor, outcome: Status) returns (r: Status)
    modifies hv`record
    ensures r == outcome && hv.record == old(hv.record) + [CollectingLogs]
  {
    hv.Note(CollectingLogs);
    return outcome;
  }

  /** What a teardown after the yield finds: the state at the yield, but for a listing that a
      collection of consoles refreshed. */
  function Gathered(s: Hv, x: Script): Hv {
    if x.body.Fine? && x.failed == Ok(true) && x.logs != Failed(Interrupt) then Collected(s, x.consoles.fate) else s
  }

  /** What is left of the state at the yield. */
  function LeftBehind(s: Hv, cfg: Config, x: Script): Hv {
    var t := Gathered(s, x);
    if SkipsTeardown(cfg, x) then t else After(t, RunMatcher(cfg.id), x.teardown.fate)
  }

  predicate TearsDownWell(s: Hv, cfg: Config, x: Script) {
    !x.teardown.interrupted && ReportOf(Gathered(s, x), RunMatcher(cfg.id), x.teardown.fate) == Clean
  }

  /** The generator finishes without raising: the run is kept after it failed, or torn down
      without an error. */
  predicate EndsWell(s: Hv, cfg: Config, x: Script) {
    && x.body.Fine? && x.failed.Ok?
    && (x.failed.value ==> x.logs != Failed(Interrupt) && !x.consoles.interrupted)
    && (SkipsTeardown(cfg, x) || TearsDownWell(s, cfg, x))
  }

  /** What the generator raises after the yield: what was thrown in at it or raised by failed(), an
      interrupt of either collection or of the teardown, or the teardown's own error. */
  predicate RaisesAfterYield(cfg: Config, x: Script, e: Exn) {
    if x.body.Failed? then e == x.body.error
    else if x.failed.Raised? then e == x.failed.error
    else if x.failed.value && (x.logs == Failed(Interrupt) || x.consoles.interrupted) then e == Interrupt
    else if x.teardown.interrupted then e == Interrupt
    else e.LibvirtError?
  }

  /** The generator from the yield on. */
  method Finish(hv: Hypervisor, cfg: Config, x: Script)
    returns (r: Status, ghost evidence: seq<Event>, ghost teardown: seq<Event>)
    modifies hv`domains, hv`pool, hv`nets, hv`saved, hv`record
    ensures hv.State() == LeftBehind(old(hv.State()), cfg, x)
    ensures r.Fine? <==> EndsWell(old(hv.State()), cfg, x)
    ensures r.Failed? ==> RaisesAfterYield(cfg, x, r.error)
    ensures hv.record == old(hv.record) + [Yielded] + evidence + teardown
    ensures EvidenceOf(x, evidence)
    ensures if SkipsTeardown(cfg, x) then teardown == [] else [TearingDown] <= teardown
    ensures CollectingConsoles in evidence && old(hv.active) && AllDone(x.consoles.fate) ==>
      forall v :: v in old(hv.pool).disk && IsConsole(cfg.id, v) ==>
        SavedAs(cfg.id, v) in hv.saved && hv.saved[SavedAs(cfg.id, v)] == old(hv.pool).disk[v]
  {
    evidence, teardown := [], [];
    hv.Note(Yielded);
    if x.body.Failed? { return x.body, evidence, teardown; }
    if x.failed.Raised? { return Failed(x.failed.error), evidence, teardown; }
    if x.failed.value {
      ghost var yielded := hv.record;
      var logged := CollectLogs(hv, x.logs);
      evidence := [CollectingLogs];
      if logged == Failed(Interrupt) { return logged, evidence, teardown; }
      var collected := CollectConsoles(hv, cfg.id, x.consoles);
      evidence := hv.record[|yielded|..];
      if collected.Failed? { return collected, evidence, teardown; }
      if cfg.keep { return Fine, evidence, teardown; }
    }
    ghost var gathered := hv.record;
    r := DestroyRun(hv, cfg.id, x.teardown);
    teardown := hv.record[|gathered|..];
  }

  /** `ready` is the state at the yield, if it comes to that. */
  method ProvisionedInfra(hv: Hypervisor, cfg: Config, base: string, x: Script)
    returns (r: Status, ready: Option<Hv>, ghost evidence: seq<Event>, ghost teardown: seq<Event>)
    requires LegalId(cfg.id)
    modifies hv`domains, hv`pool, hv`nets, hv`faults, hv`raised, hv`signs, hv`saved, hv`record
    // the order of events: a failed run's logs, then its consoles, then any removal
    ensures ready.Some? ==>
      && hv.record == old(hv.record) + [Yielded] + evidence + teardown
      && EvidenceOf(x, evidence)
      && (if SkipsTeardown(cfg, x) then teardown == [] else [TearingDown] <= teardown)
    // the consoles are saved as they were before anything was removed
    ensures ready.Some? && CollectingConsoles in evidence && ready.value.active && AllDone(x.consoles.fate) ==>
      forall v :: v in ready.value.pool.disk && IsConsole(cfg.id, v) ==>
        SavedAs(cfg.id, v) in hv.saved && hv.saved[SavedAs(cfg.id, v)] == ready.value.pool.disk[v]
    // a failed provision cleans up after itself
    ensures ready.None? ==> r.Failed?
    ensures ready.None? && !x.provisionConsoles.interrupted && !x.provisionCleanup.interrupted ==> hv.raised == Some(r.error)
    ensures hv.faults == old(hv.faults) && CanProvision(old(hv.State()), hv.busy, cfg, base) ==> ready.Some?
    ensures ready.None? && hv.active && !cfg.keep && !x.provisionConsoles.interrupted && AllDone(x.provisionCleanup.fate) ==>
      !Survives(hv.State(), cfg.id)
    // once provisioned, everything of the run is there, and stays as it was or is torn down
    ensures ready.Some? ==>
      && (exists nodes :: Built(ready.value, cfg, base, nodes))
      && hv.State() == LeftBehind(ready.value, cfg, x)
      && (r.Fine? <==> EndsWell(ready.value, cfg, x))
      && (r.Failed? ==> RaisesAfterYield(cfg, x, r.error))
    // when it ends well, something of the run survives exactly when it failed and is kept
    ensures ready.Some? && hv.active && r.Fine? ==>
      (Survives(hv.State(), cfg.id) <==> x.failed == Ok(true) && cfg.keep)
    // however it ends, short of a teardown that raises: exactly when teardown was skipped
    ensures ready.Some? && hv.active && (r.Fine? || SkipsTeardown(cfg, x)) ==>
      (Survives(hv.State(), cfg.id) <==> SkipsTeardown(cfg, x))
    // an error at the yield, or an interrupt while evidence is collected, leaves it all behind
    ensures ready.Some? && x.body.Failed? ==> r == x.body && Survives(hv.State(), cfg.id)
    ensures ready.Some? && x.body.Fine? && x.failed.Raised? ==> r == Failed(x.failed.error) && Survives(hv.State(), cfg.id)
    ensures ready.Some? && x.body.Fine? && x.failed == Ok(true) && (x.logs == Failed(Interrupt) || x.consoles.interrupted) ==>
      r == Failed(Interrupt) && Survives(hv.State(), cfg.id)
  {
    evidence, teardown, ready := [], [], None;
    ghost var before := hv.State();
    var infra, _ := ProvisionRun(hv, cfg, base, x.provisionConsoles, x.provisionCleanup);
    if infra.Raised? {
      NothingLeftAfterFailure(before, cfg.id);
      return Failed(infra.error), ready, evidence, teardown;
    }
    ready := Some(hv.State());
    SurvivesExactly(hv.State(), cfg, base, infra.value, x);
    r, evidence, teardown := Finish(hv, cfg, x);
  }

  /** Of a run that was provisioned, something survives exactly when teardown was skipped, unless
      a teardown raised. When all ends well, that is when the run failed and is kept; an
      exception thrown in at the yield, or an interrupt, also leaves it all behind. */
  lemma SurvivesExactly(s: Hv, cfg: Config, base: string, nodes: seq<Node>, x: Script)
    requires Built(s, cfg, base, nodes) && LegalId(cfg.id)
    ensures EndsWell(s, cfg, x) && s.active ==>
              (Survives(LeftBehind(s, cfg, x), cfg.id) <==> x.failed.value && cfg.keep)
    ensures SkipsTeardown(cfg, x) ==> Survives(LeftBehind(s, cfg, x), cfg.id)
    ensures !SkipsTeardown(cfg, x) && TearsDownWell(s, cfg, x) && s.active ==> !Survives(LeftBehind(s, cfg, x), cfg.id)
  {
    var t := Gathered(s, x);
    if SkipsTeardown(cfg, x) {
      assert Present(t, Net(Tag(cfg.id)));
    } else if TearsDownWell(s, cfg, x) && s.active {
      CleanMeansGone(t, cfg.id, x.teardown.fate);
    }
  }

  /** A teardown that reports nothing has removed everything of the run. */
  lemma CleanMeansGone(s: Hv, id: string, fate: Fates)
    requires s.active && LegalId(id) && ReportOf(s, RunMatcher(id), fate) == Clean
    ensures !Survives(After(s, RunMatcher(id), fate), id)
  {
    TeardownExact(s, RunMatcher(id), fate);
    ReportExact(s, RunMatcher(id), fate);
    forall o | Present(After(s, RunMatcher(id), fate), o) ensures !BelongsTo(Tag(id), o.name) {
      if BelongsTo(Tag(id), o.name) {
        OwnVolumesAreNotBase(id, o.name);
        assert Target(RunMatcher(id), o) && Present(s, o);
      }
    }
  }

  lemma NothingLeftAfterFailure(s: Hv, id: string)
    requires LegalId(id)
    ensures s.active ==> !Survives(After(s, RunMatcher(id), Smooth()), id)
  {
    if s.active {
      forall o | Present(After(s, RunMatcher(id), Smooth()), o) ensures !BelongsTo(Tag(id), o.name) {
        FailedProvisionLeavesNothingOfTheRun(s, id, o);
      }
    }
  }
}
