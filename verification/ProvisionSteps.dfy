/** Provisioning inside the base-image protocol: a run that is past ensure_base_image builds on
    the published, whole image, and whatever it does to the pool keeps the protocol invariant. */
module ProvisionSteps {
  import opened Wrappers
  import opened Names
  import opened BaseImage
  import T = Teardown
  import P = Provision

  /** What a provision may do to the hypervisor, however it ends, is harmless to the protocol. */
  lemma ProvisionKeepsInv(env: Env, s: Sys, p: nat, before: T.Hv, after: T.Hv)
    requires Inv(env, s) && p in s.runs && s.runs[p].pc.Ready? && before.pool == s.pool
    requires P.OwnOnly(before, after, s.runs[p].id) && P.BacksOnto(before, after, s.runs[p].base)
    ensures Inv(env, s.(pool := after.pool))
  {
    var r := s.runs[p];
    forall v | BASE_PREFIX <= v ensures !BelongsTo(Tag(r.id), v) {
      if BelongsTo(Tag(r.id), v) { OwnVolumesAreNotBase(r.id, v); }
    }
    ReadyIsPublished(env, s, p);
    forall v | v in after.pool.disk && after.pool.disk[v].backing.Some?
      ensures IsBase(after.pool.disk[v].backing.value) && Published(s.pool, after.pool.disk[v].backing.value)
    {
      assert after.pool.disk[v].backing == Some(r.base)
             || (v in s.pool.disk && s.pool.disk[v].backing == after.pool.disk[v].backing);
    }
    UnsharedStep(env, s, after.pool);
  }

  /** Every node of a run that was provisioned has its overlay on the published, whole image its
      configuration pins. */
  lemma NodesOnWholeImage(env: Env, s: Sys, p: nat, before: T.Hv, after: T.Hv, cfg: P.Config, nodes: seq<P.Node>)
    requires Inv(env, s) && p in s.runs && s.runs[p].pc.Ready? && before.pool == s.pool
    requires P.OwnOnly(before, after, cfg.id) && P.BacksOnto(before, after, s.runs[p].base)
    requires cfg.id == s.runs[p].id && P.Built(after, cfg, s.runs[p].base, nodes)
    ensures forall i: nat :: i < cfg.nodes ==>
              var overlay := OverlayName(cfg.id, i);
              && overlay in after.pool.disk && after.pool.disk[overlay].backing.Some?
              && Published(after.pool, after.pool.disk[overlay].backing.value)
              && Complete(env, after.pool, after.pool.disk[overlay].backing.value)
  {
    ProvisionKeepsInv(env, s, p, before, after);
    var base := s.runs[p].base;
    ReadyIsPublished(env, s.(pool := after.pool), p);
    assert Complete(env, after.pool, base);
    forall i: nat | i < cfg.nodes
      ensures OverlayName(cfg.id, i) in after.pool.disk && after.pool.disk[OverlayName(cfg.id, i)].backing == Some(base)
    {
      assert P.NodeUp(after, cfg.id, i, base);
    }
  }
}
