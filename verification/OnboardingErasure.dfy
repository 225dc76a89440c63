/**
 A failed onboarding run can be deleted from history: without its events the others are an execution
 as well, and it ends in the same tables, the same runs and the same boxes of all other tenants.
 */
module OnboardingErasure {
  import opened Basics
  import opened BoxKeys
  import opened PolicyContracts
  import opened TenantIsolation
  import opened TenantStores
  import opened Provisioning
  import opened Onboarding
  import opened OnboardingProof
  import opened OnboardingTheorems
  import opened OnboardingStability
  import opened OnboardingRuns

  /** The first `k` events without those of `t` from `i` on. */
  function Erased(events: seq<Event>, t: Tenant, i: nat, k: nat): seq<Event>
    requires i <= k <= |events|
  {
    if i == k then events[..i]
    else Erased(events, t, i, k - 1) + if OfTenant(events[k - 1], t) then [] else [events[k - 1]]
  }

  ghost predicate SameBoxes(crypto: Crypto, boxes: iset<Box>, t: Tenant, c: Chain, c': Chain) {
    forall box :: box in boxes && !box.AnchorBox? && box.tenant != t ==>
      ContentOf(crypto.sha, c', box) == ContentOf(crypto.sha, c, box)
  }

  /** `w'` is `w` without everything that belongs to `t`. */
  ghost predicate Shadow(crypto: Crypto, boxes: iset<Box>, t: Tenant, w: World, w': World) {
    && w'.tables == WithoutOrg(w.tables, t.org) && w'.runs == w.runs - {t} && w'.issued <= w.issued
    && SameBoxes(crypto, boxes, t, w.chain, w'.chain)
  }

  // ----- Events of the erased tenant -----

  lemma OwnStep(crypto: Crypto, boxes: iset<Box>, w: World, e: Event, v: World, t: Tenant, w': World)
    requires NamesApart(crypto.sha, boxes) && IsStep(crypto, boxes, w, e, v) && OfTenant(e, t)
    requires Shadow(crypto, boxes, t, w, w')
    ensures Shadow(crypto, boxes, t, v, w')
  {
    OwnEventsAreLocal(w.tables, w.runs, e);
    assert v.runs - {t} == w.runs - {t};
    forall box | box in boxes && !box.AnchorBox? && box.tenant != t
      ensures ContentOf(crypto.sha, v.chain, box) == ContentOf(crypto.sha, w.chain, box)
    {
      if box in Touched(crypto, w, e) {
        TouchedIsOwn(crypto, w, e, box);
      }
      ContentKept(crypto, boxes, w, e, box);
    }
  }

  // ----- Events of the others -----

  /** Tenant `u` has the same run, the same key and as many on-chain rules in both worlds. */
  ghost predicate Alike(crypto: Crypto, u: Tenant, w: World, w': World) {
    && u in w.runs && u in w'.runs && w'.runs[u] == w.runs[u]
    && u.org in w.tables.orgs && u.org in w'.tables.orgs && w'.tables.orgs[u.org] == w.tables.orgs[u.org]
    && RuleCount(crypto.sha, w'.chain, u) == RuleCount(crypto.sha, w.chain, u)
  }

  /** The acting tenant, if it has a run, looks the same in both worlds. */
  ghost predicate ActorAlike(crypto: Crypto, w: World, e: Event, w': World) {
    !e.Crash? && e.tenant in w.runs ==> Alike(crypto, e.tenant, w, w')
  }

  lemma CountIsSame(crypto: Crypto, boxes: iset<Box>, w: World, u: Tenant, t: Tenant, c': Chain)
    requires TenantInv(crypto, boxes, w, u) && u != t && SameBoxes(crypto, boxes, t, w.chain, c')
    ensures RuleCount(crypto.sha, c', u) == RuleCount(crypto.sha, w.chain, u)
  {
    var box := CountBox(u);
    assert ContentOf(crypto.sha, c', box) == ContentOf(crypto.sha, w.chain, box);
  }

  lemma ActorIsSame(crypto: Crypto, boxes: iset<Box>, w: World, e: Event, t: Tenant, w': World)
    requires Inv(crypto, boxes, w) && t in w.runs && !OfTenant(e, t) && Shadow(crypto, boxes, t, w, w')
    ensures ActorAlike(crypto, w, e, w')
  {
    if !e.Crash? && e.tenant in w.runs {
      RunIsSame(w, e.tenant, t, w');
      CountIsSame(crypto, boxes, w, e.tenant, t, w'.chain);
    }
  }

  lemma RunIsSame(w: World, u: Tenant, t: Tenant, w': World)
    requires TablesInv(w) && t in w.runs && u in w.runs && u != t
    requires w'.tables == WithoutOrg(w.tables, t.org) && w'.runs == w.runs - {t}
    ensures u in w'.runs && w'.runs[u] == w.runs[u]
    ensures u.org in w.tables.orgs && u.org in w'.tables.orgs && w'.tables.orgs[u.org] == w.tables.orgs[u.org]
  {
    assert u.org != t.org;
  }

  lemma StillEnabled(crypto: Crypto, w: World, e: Event, t: Tenant, w': World)
    requires Enabled(crypto, w, e) && ActorAlike(crypto, w, e, w')
    requires w'.tables == WithoutOrg(w.tables, t.org) && w'.issued <= w.issued
    ensures Enabled(crypto, w', e) && EffectOf(crypto, w', e) == EffectOf(crypto, w, e)
    ensures Touched(crypto, w', e) == Touched(crypto, w, e)
  {
  }

  lemma SameRuns(crypto: Crypto, w: World, e: Event, t: Tenant, w': World)
    requires Enabled(crypto, w, e) && Enabled(crypto, w', e) && ActorAlike(crypto, w, e, w') && !OfTenant(e, t)
    requires w'.runs == w.runs - {t}
    ensures NextRuns(crypto, w', e) == NextRuns(crypto, w, e) - {t}
  {
  }

  lemma SameTables(crypto: Crypto, boxes: iset<Box>, w: World, e: Event, t: Tenant, w': World)
    requires Inv(crypto, boxes, w) && Enabled(crypto, w, e) && t in w.runs && !OfTenant(e, t)
    requires Shadow(crypto, boxes, t, w, w')
    ensures NextTables(w'.tables, w'.runs, e) == WithoutOrg(NextTables(w.tables, w.runs, e), t.org)
  {
    OtherOrganisation(w, e, t);
    OtherEventsCommute(w.tables, w.runs, e, t.org);
  }

  /** The same effect on boxes with the same content leaves them with the same content. */
  lemma SameEffect(crypto: Crypto, boxes: iset<Box>, w: World, e: Event, t: Tenant, w': World)
    requires Within(crypto, boxes, w, e) && Within(crypto, boxes, w', e) && !OfTenant(e, t)
    requires EffectOf(crypto, w', e) == EffectOf(crypto, w, e) && Touched(crypto, w', e) == Touched(crypto, w, e)
    requires SameBoxes(crypto, boxes, t, w.chain, w'.chain)
    ensures SameBoxes(crypto, boxes, t, Next(crypto, w, e).chain, Next(crypto, w', e).chain)
  {
    forall box | box in boxes && !box.AnchorBox? && box.tenant != t
      ensures ContentOf(crypto.sha, Next(crypto, w', e).chain, box) == ContentOf(crypto.sha, Next(crypto, w, e).chain, box)
    {
      if box in Touched(crypto, w, e) {
        TouchedAlike(crypto, boxes, w, e, t, w', box);
      } else {
        ContentKept(crypto, boxes, w, e, box);
        ContentKept(crypto, boxes, w', e, box);
      }
    }
  }

  lemma TouchedAlike(crypto: Crypto, boxes: iset<Box>, w: World, e: Event, t: Tenant, w': World, box: Box)
    requires Within(crypto, boxes, w, e) && Within(crypto, boxes, w', e) && box in Touched(crypto, w, e)
    requires EffectOf(crypto, w', e) == EffectOf(crypto, w, e) && Touched(crypto, w', e) == Touched(crypto, w, e)
    requires SameBoxes(crypto, boxes, t, w.chain, w'.chain) && !OfTenant(e, t)
    ensures ContentOf(crypto.sha, Next(crypto, w', e).chain, box) == ContentOf(crypto.sha, Next(crypto, w, e).chain, box)
  {
    TouchedIsOwn(crypto, w, e, box);
    assert box in boxes && ContentOf(crypto.sha, w'.chain, box) == ContentOf(crypto.sha, w.chain, box);
    match EffectOf(crypto, w, e)
    case Some(effect) =>
      if effect.Register? {
        var count := CountBox(effect.tenant);
        assert count in Touched(crypto, w, e);
        assert ContentOf(crypto.sha, w'.chain, count) == ContentOf(crypto.sha, w.chain, count);
      }
      WrittenAlike(crypto.sha, w.chain, w'.chain, effect, box);
    case None =>
  }

  /** What an effect writes into a box depends at most on the tenant's rule count. */
  lemma WrittenAlike(sha: Hash, c: Chain, c': Chain, effect: Effect, box: Box)
    requires box in Written(sha, c, effect) && ContentOf(sha, c', box) == ContentOf(sha, c, box)
    requires effect.Register? ==> RuleCount(sha, c', effect.tenant) == RuleCount(sha, c, effect.tenant)
    ensures ContentOf(sha, Apply(sha, c', effect), box) == ContentOf(sha, Apply(sha, c, effect), box)
  {
  }

  lemma OtherStep(crypto: Crypto, boxes: iset<Box>, w: World, e: Event, v: World, t: Tenant, w': World)
    requires NamesApart(crypto.sha, boxes) && Inv(crypto, boxes, w) && IsStep(crypto, boxes, w, e, v)
    requires t in w.runs && !OfTenant(e, t) && Shadow(crypto, boxes, t, w, w')
    ensures Enabled(crypto, w', e) && IsStep(crypto, boxes, w', e, Next(crypto, w', e))
    ensures Shadow(crypto, boxes, t, v, Next(crypto, w', e))
  {
    ActorIsSame(crypto, boxes, w, e, t, w');
    StillEnabled(crypto, w, e, t, w');
    SameRuns(crypto, w, e, t, w');
    SameTables(crypto, boxes, w, e, t, w');
    SameEffect(crypto, boxes, w, e, t, w');
  }

  // ----- The execution without the failed run -----

  lemma {:induction false} PrefixExecution(crypto: Crypto, boxes: iset<Box>, worlds: seq<World>, events: seq<Event>, i: nat)
    requires IsExecution(crypto, boxes, worlds, events) && i <= |events|
    ensures IsExecution(crypto, boxes, worlds[..i + 1], events[..i])
    decreases |events|
  {
    var n := |events|;
    if i == n {
      assert worlds[..n + 1] == worlds && events[..n] == events;
    } else {
      PrefixExecution(crypto, boxes, worlds[..n], events[..n - 1], i);
      assert worlds[..n][..i + 1] == worlds[..i + 1] && events[..n - 1][..i] == events[..i];
    }
  }

  /** The first `k` events without those of `t` lead through `worlds'` to the world without `t`. */
  ghost predicate ErasedExecution(crypto: Crypto, boxes: iset<Box>, worlds: seq<World>, events: seq<Event>,
                                  t: Tenant, i: nat, k: nat, worlds': seq<World>)
    requires i <= k <= |events| < |worlds|
  {
    && IsExecution(crypto, boxes, worlds', Erased(events, t, i, k))
    && Shadow(crypto, boxes, t, worlds[k], worlds'[|Erased(events, t, i, k)|])
  }

  /** Before the run begins there is nothing of the tenant. */
  lemma NothingYet(crypto: Crypto, boxes: iset<Box>, w: World, e: Event)
    requires Inv(crypto, boxes, w) && e.Begin? && Enabled(crypto, w, e)
    ensures Shadow(crypto, boxes, e.tenant, w, w)
  {
    NoRowsWithoutOrg(w, e.tenant.org);
    assert e.tenant !in w.runs;
    assert w.runs - {e.tenant} == w.runs;
  }

  /** Step by step, with the invariant in every state. */
  ghost predicate Stepwise(crypto: Crypto, boxes: iset<Box>, worlds: seq<World>, events: seq<Event>) {
    && |worlds| == |events| + 1 && NamesApart(crypto.sha, boxes)
    && forall m :: 0 <= m < |events| ==> SoundStep(crypto, boxes, worlds, events, m)
  }

  ghost predicate SoundStep(crypto: Crypto, boxes: iset<Box>, worlds: seq<World>, events: seq<Event>, m: nat)
    requires m < |events| < |worlds|
  {
    Inv(crypto, boxes, worlds[m]) && IsStep(crypto, boxes, worlds[m], events[m], worlds[m + 1])
  }

  lemma ExecutionIsStepwise(crypto: Crypto, boxes: iset<Box>, worlds: seq<World>, events: seq<Event>)
    requires IsExecution(crypto, boxes, worlds, events) && CollisionFree(crypto, boxes)
    ensures Stepwise(crypto, boxes, worlds, events)
  {
    NamesApartIfInjective(crypto.sha, boxes);
    forall m: nat | m < |events|
      ensures SoundStep(crypto, boxes, worlds, events, m)
    {
      InvReachable(crypto, boxes, worlds, events, m);
      StepAt(crypto, boxes, worlds, events, m);
    }
  }

  lemma {:induction false} Erase(crypto: Crypto, boxes: iset<Box>, worlds: seq<World>, events: seq<Event>,
                                 t: Tenant, i: nat, k: nat, start: seq<World>)
    returns (worlds': seq<World>)
    requires Stepwise(crypto, boxes, worlds, events)
    requires i <= k <= |events| && i < |events| && events[i].Begin? && events[i].tenant == t
    requires forall m :: i < m < k ==> t in worlds[m].runs
    requires IsExecution(crypto, boxes, start, events[..i]) && start[i] == worlds[i]
    ensures ErasedExecution(crypto, boxes, worlds, events, t, i, k, worlds')
    decreases k
  {
    if k == i {
      worlds' := start;
      assert SoundStep(crypto, boxes, worlds, events, i);
      NothingYet(crypto, boxes, worlds[i], events[i]);
    } else {
      var front := Erase(crypto, boxes, worlds, events, t, i, k - 1, start);
      worlds' := EraseNext(crypto, boxes, worlds, events, t, i, k, front);
    }
  }

  lemma EraseNext(crypto: Crypto, boxes: iset<Box>, worlds: seq<World>, events: seq<Event>, t: Tenant, i: nat, k: nat,
                  front: seq<World>)
    returns (worlds': seq<World>)
    requires Stepwise(crypto, boxes, worlds, events)
    requires i < k <= |events| && (OfTenant(events[k - 1], t) || t in worlds[k - 1].runs)
    requires ErasedExecution(crypto, boxes, worlds, events, t, i, k - 1, front)
    ensures ErasedExecution(crypto, boxes, worlds, events, t, i, k, worlds')
  {
    var w, e, v, before := worlds[k - 1], events[k - 1], worlds[k], Erased(events, t, i, k - 1);
    assert SoundStep(crypto, boxes, worlds, events, k - 1);
    if OfTenant(e, t) {
      assert Erased(events, t, i, k) == before;
      OwnStep(crypto, boxes, w, e, v, t, front[|before|]);
      worlds' := front;
    } else {
      assert Erased(events, t, i, k) == before + [e];
      worlds' := OtherNext(crypto, boxes, w, e, v, t, front, before);
    }
  }

  lemma OtherNext(crypto: Crypto, boxes: iset<Box>, w: World, e: Event, v: World, t: Tenant, front: seq<World>,
                  before: seq<Event>)
    returns (worlds': seq<World>)
    requires NamesApart(crypto.sha, boxes) && Inv(crypto, boxes, w) && IsStep(crypto, boxes, w, e, v)
    requires t in w.runs && !OfTenant(e, t)
    requires IsExecution(crypto, boxes, front, before) && Shadow(crypto, boxes, t, w, front[|before|])
    ensures IsExecution(crypto, boxes, worlds', before + [e]) && Shadow(crypto, boxes, t, v, worlds'[|before + [e]|])
  {
    var w' := front[|before|];
    OtherStep(crypto, boxes, w, e, v, t, w');
    var v' := Next(crypto, w', e);
    StepExtends(crypto, boxes, front, before, e, v');
    worlds' := front + [v'];
    assert worlds'[|before + [e]|] == v';
  }

  /**
   Onboarding atomicity at full strength: if a run begins at `i` and fails at `j`, then the events up
   to its failure without its own are an execution, which ends in the same tables and the same runs,
   with the same boxes of all other tenants.
   */
  lemma FailedRunErased(crypto: Crypto, boxes: iset<Box>, worlds: seq<World>, events: seq<Event>, t: Tenant, i: nat, j: nat)
    returns (worlds': seq<World>)
    requires IsExecution(crypto, boxes, worlds, events) && CollisionFree(crypto, boxes)
    requires i < j < |events| && events[i].Begin? && events[i].tenant == t && events[j] == Fail(t)
    ensures IsExecution(crypto, boxes, worlds', Erased(events, t, i, j + 1))
    ensures
      var w, w' := worlds[j + 1], worlds'[|Erased(events, t, i, j + 1)|];
      w'.tables == w.tables && w'.runs == w.runs && SameBoxes(crypto, boxes, t, w.chain, w'.chain)
  {
    StepAt(crypto, boxes, worlds, events, i);
    StepAt(crypto, boxes, worlds, events, j);
    LiveBetween(crypto, boxes, worlds, events, t, i + 1, j);
    ExecutionIsStepwise(crypto, boxes, worlds, events);
    PrefixExecution(crypto, boxes, worlds, events, i);
    worlds' := Erase(crypto, boxes, worlds, events, t, i, j + 1, worlds[..i + 1]);
    NothingLeft(crypto, boxes, worlds[j], worlds[j + 1], t);
  }

  lemma NothingLeft(crypto: Crypto, boxes: iset<Box>, w: World, v: World, t: Tenant)
    requires IsStep(crypto, boxes, w, Fail(t), v)
    ensures WithoutOrg(v.tables, t.org) == v.tables && v.runs - {t} == v.runs
  {
    GoneIsItself(w.tables, t.org);
    assert v.runs - {t} == v.runs;
  }

  lemma GoneIsItself(tables: Tables, org: Text)
    ensures WithoutOrg(WithoutOrg(tables, org), org) == WithoutOrg(tables, org)
  {
    var a, b := WithoutOrg(WithoutOrg(tables, org), org), WithoutOrg(tables, org);
    assert a.orgs == b.orgs && a.agents == b.agents && a.rules == b.rules;
  }
}
