/**
 What the invariant of the onboarding machine means for every run: the mirror, the isolation of
 a failed run, and the verdict of a check against the declared policies.
 */
module OnboardingTheorems {
  import opened Basics
  import opened BoxKeys
  import opened PolicyContracts
  import opened TenantStores
  import opened ContractClient
  import opened Provisioning
  import opened Onboarding
  import opened OnboardingProof
  import opened PolicyVerdict

  ghost predicate IsInitial(w: World) {
    w == World(Chain(map[], map[], map[], w.chain.receipts), Tables(map[], map[], map[]), map[], {})
  }

  ghost predicate IsStep(crypto: Crypto, boxes: iset<Box>, w: World, e: Event, w': World) {
    && Enabled(crypto, w, e) && w' == Next(crypto, w, e)
    && forall b :: b in Touched(crypto, w, e) ==> b in boxes
  }

  /** An interleaving of onboarding runs, failures, crashes and audits, from the empty world on. */
  ghost predicate IsExecution(crypto: Crypto, boxes: iset<Box>, worlds: seq<World>, events: seq<Event>)
    decreases |events|
  {
    && |worlds| == |events| + 1
    && var n := |events|;
       if n == 0 then IsInitial(worlds[0])
       else
         && IsExecution(crypto, boxes, worlds[..n], events[..n - 1])
         && IsStep(crypto, boxes, worlds[n - 1], events[n - 1], worlds[n])
  }

  lemma {:induction false} StepAt(crypto: Crypto, boxes: iset<Box>, worlds: seq<World>, events: seq<Event>, i: nat)
    requires IsExecution(crypto, boxes, worlds, events) && i < |events|
    ensures IsStep(crypto, boxes, worlds[i], events[i], worlds[i + 1])
    decreases |events|
  {
    var n := |events|;
    if i < n - 1 {
      StepAt(crypto, boxes, worlds[..n], events[..n - 1], i);
    }
  }

  /** The hash has no collision among the names of the boxes that the execution touches. */
  ghost predicate CollisionFree(crypto: Crypto, boxes: iset<Box>) {
    forall x, y :: x in boxes && y in boxes ==> !Collide(crypto.sha, Preimage(x), Preimage(y))
  }

  lemma {:induction false} InvReachable(crypto: Crypto, boxes: iset<Box>, worlds: seq<World>, events: seq<Event>, i: nat)
    requires IsExecution(crypto, boxes, worlds, events) && CollisionFree(crypto, boxes) && i < |worlds|
    ensures Inv(crypto, boxes, worlds[i])
    decreases |events|
  {
    var n := |events|;
    if n == 0 {
      EmptyWorld(crypto, boxes, worlds[0]);
    } else {
      var k := if i < n then i else n - 1;
      assert worlds[..n][k] == worlds[k];
      InvReachable(crypto, boxes, worlds[..n], events[..n - 1], k);
      if i == n {
        KeepsInv(crypto, boxes, worlds[n - 1], events[n - 1], worlds[n]);
      }
    }
  }

  lemma EmptyWorld(crypto: Crypto, boxes: iset<Box>, w: World)
    requires IsInitial(w)
    ensures Inv(crypto, boxes, w)
  {
  }

  lemma KeepsInv(crypto: Crypto, boxes: iset<Box>, w: World, e: Event, w': World)
    requires CollisionFree(crypto, boxes) && Inv(crypto, boxes, w) && IsStep(crypto, boxes, w, e, w')
    ensures Inv(crypto, boxes, w')
  {
    NamesApartIfInjective(crypto.sha, boxes);
    InvStep(crypto, boxes, w, e);
  }

  /** The stored rules of `t` are its first `n` on-chain rules, equal in mode, operator, value, field and commitment. */
  ghost predicate MirrorsPrefix(crypto: Crypto, w: World, t: Tenant, n: nat) {
    && HasPrefix(w.tables, t.org, t.agent, n)
    && forall k :: 0 <= k < n ==>
         && (t.org, t.agent, k) in w.tables.rules
         && MirrorsRule(crypto, w.chain, t, k, w.tables.rules[(t.org, t.agent, k)])
  }

  predicate MirrorsRule(crypto: Crypto, c: Chain, t: Tenant, k: nat, row: RuleRow) {
    RowEncodable(t.org, t.agent, row) && RuleAt(crypto.sha, c, t, k) == Some(MirroredRule(row))
  }

  /**
   Mirror invariant, in every reachable state: the stored rules of a live tenant are its on-chain
   rules, all of them exactly when no rule waits to be stored, and all but the last otherwise; for a
   completed run they are its declared policies, one each.
   */
  lemma MirrorInvariant(crypto: Crypto, boxes: iset<Box>, worlds: seq<World>, events: seq<Event>, i: nat, t: Tenant)
    requires IsExecution(crypto, boxes, worlds, events) && CollisionFree(crypto, boxes) && i < |worlds|
    requires t in worlds[i].runs
    ensures
      var w, n, run := worlds[i], RuleCount(crypto.sha, worlds[i].chain, t), worlds[i].runs[t];
      && (MirrorsPrefix(crypto, w, t, n) <==> !run.phase.Registered?)
      && (n > 0 && MirrorsPrefix(crypto, w, t, n - 1) <==> run.phase.Registered?)
      && (run.status.Completed? ==> n == |run.specs|)
  {
    InvReachable(crypto, boxes, worlds, events, i);
    assert TenantInv(crypto, boxes, worlds[i], t);
    MirrorOfTenant(crypto, boxes, worlds[i], t);
  }

  lemma MirrorOfTenant(crypto: Crypto, boxes: iset<Box>, w: World, t: Tenant)
    requires TenantInv(crypto, boxes, w, t)
    ensures
      var n, run := RuleCount(crypto.sha, w.chain, t), w.runs[t];
      && (MirrorsPrefix(crypto, w, t, n) <==> !run.phase.Registered?)
      && (n > 0 && MirrorsPrefix(crypto, w, t, n - 1) <==> run.phase.Registered?)
      && (run.status.Completed? ==> n == |run.specs|)
  {
    var run := w.runs[t];
    var stored := InStore(run);
    forall k | 0 <= k < stored
      ensures (t.org, t.agent, k) in w.tables.rules
      ensures MirrorsRule(crypto, w.chain, t, k, w.tables.rules[(t.org, t.agent, k)])
    {
      assert MirrorAgrees(crypto, w.chain, w.tables, t, k, run.specs[k]);
    }
    assert MirrorsPrefix(crypto, w, t, stored);
    PrefixIsUnique(w.tables, t.org, t.agent, stored);
  }

  lemma PrefixIsUnique(tables: Tables, org: Text, agent: Text, n: nat)
    requires HasPrefix(tables, org, agent, n)
    ensures forall m: nat :: HasPrefix(tables, org, agent, m) ==> m == n
  {
    forall m: nat | HasPrefix(tables, org, agent, m)
      ensures m == n
    {
      assert (org, agent, m) !in tables.rules && (org, agent, n) !in tables.rules;
    }
  }

  // ----- A failed run is as if it had never been -----

  predicate OfTenant(e: Event, t: Tenant) {
    !e.Crash? && e.tenant == t
  }

  /** The tables that the events from `i` up to `j` produce when those of `t` are left out. */
  function TablesWithout(worlds: seq<World>, events: seq<Event>, t: Tenant, i: nat, j: nat): Tables
    requires i <= j <= |events| < |worlds|
  {
    if i == j then worlds[i].tables
    else
      var before := TablesWithout(worlds, events, t, i, j - 1);
      if OfTenant(events[j - 1], t) then before else NextTables(before, worlds[j - 1].runs, events[j - 1])
  }

  lemma {:induction false} OthersUnaffected(crypto: Crypto, boxes: iset<Box>, worlds: seq<World>, events: seq<Event>,
                                            t: Tenant, i: nat, j: nat)
    requires IsExecution(crypto, boxes, worlds, events) && CollisionFree(crypto, boxes)
    requires i < j <= |events| && events[i].Begin? && events[i].tenant == t
    requires forall k :: i < k < j ==> t in worlds[k].runs
    ensures WithoutOrg(worlds[j].tables, t.org) == TablesWithout(worlds, events, t, i, j)
    decreases j
  {
    var w, e := worlds[j - 1], events[j - 1];
    TableStep(crypto, boxes, worlds, events, j - 1);
    if j == i + 1 {
      NoRowsWithoutOrg(w, t.org);
    } else {
      OthersUnaffected(crypto, boxes, worlds, events, t, i, j - 1);
    }
    WithoutStep(w, e, t);
  }

  /** Of what makes an event enabled, the part that concerns organisations. */
  predicate Concerns(w: World, e: Event) {
    && (e.Begin? ==> e.tenant.org !in w.tables.orgs)
    && (e.StoreWrite? || e.Fail? ==> e.tenant in w.runs)
  }

  lemma TableStep(crypto: Crypto, boxes: iset<Box>, worlds: seq<World>, events: seq<Event>, i: nat)
    requires IsExecution(crypto, boxes, worlds, events) && CollisionFree(crypto, boxes) && i < |events|
    ensures TablesInv(worlds[i]) && Concerns(worlds[i], events[i])
    ensures worlds[i + 1].tables == NextTables(worlds[i].tables, worlds[i].runs, events[i])
    ensures events[i].Fail? ==> events[i].tenant !in worlds[i + 1].runs
  {
    InvReachable(crypto, boxes, worlds, events, i);
    StepAt(crypto, boxes, worlds, events, i);
  }

  /** Taking an organisation out of the tables commutes with the events of others, and absorbs its own. */
  lemma WithoutStep(w: World, e: Event, t: Tenant)
    requires TablesInv(w) && Concerns(w, e) && (OfTenant(e, t) || t in w.runs)
    ensures WithoutOrg(NextTables(w.tables, w.runs, e), t.org) ==
      if OfTenant(e, t) then WithoutOrg(w.tables, t.org) else NextTables(WithoutOrg(w.tables, t.org), w.runs, e)
  {
    if OfTenant(e, t) {
      OwnEventsAreLocal(w.tables, w.runs, e);
    } else {
      OtherOrganisation(w, e, t);
      OtherEventsCommute(w.tables, w.runs, e, t.org);
    }
  }

  /** While a tenant is live, no other tenant's event concerns its organisation. */
  lemma OtherOrganisation(w: World, e: Event, t: Tenant)
    requires TablesInv(w) && Concerns(w, e) && t in w.runs && !OfTenant(e, t)
    ensures e.Begin? || e.StoreWrite? || e.Fail? ==> e.tenant.org != t.org
  {
  }

  lemma NoRowsWithoutOrg(w: World, org: Text)
    requires TablesInv(w) && org !in w.tables.orgs
    ensures WithoutOrg(w.tables, org) == w.tables
  {
    var t := WithoutOrg(w.tables, org);
    forall k | k in w.tables.rules
      ensures k.0 != org
    {
      assert (k.0, k.1) in w.tables.agents;
    }
    assert t.orgs == w.tables.orgs;
    assert t.agents == w.tables.agents;
    assert t.rules == w.tables.rules;
  }

  lemma OwnEventsAreLocal(tables: Tables, runs: map<Tenant, Run>, e: Event)
    requires !e.Crash?
    ensures WithoutOrg(NextTables(tables, runs, e), e.tenant.org) == WithoutOrg(tables, e.tenant.org)
  {
    var a, b := WithoutOrg(NextTables(tables, runs, e), e.tenant.org), WithoutOrg(tables, e.tenant.org);
    assert a.orgs == b.orgs && a.agents == b.agents && a.rules == b.rules;
  }

  lemma OtherEventsCommute(tables: Tables, runs: map<Tenant, Run>, e: Event, org: Text)
    requires e.Begin? || e.StoreWrite? || e.Fail? ==> e.tenant.org != org
    ensures WithoutOrg(NextTables(tables, runs, e), org) == NextTables(WithoutOrg(tables, org), runs, e)
  {
    if e.Begin? {
      var t := e.tenant;
      WithoutAgents(tables.agents, org, (t.org, t.agent), e.agentName);
      assert tables.orgs[t.org := e.org] - {org} == (tables.orgs - {org})[t.org := e.org];
    } else if e.StoreWrite? {
      var t := e.tenant;
      if t in runs && runs[t].phase.Registered? {
        WithoutRules(tables.rules, org, (t.org, t.agent, runs[t].phase.index), runs[t].phase.row);
      }
    } else if e.Fail? {
      WithoutCommutes(tables, org, e.tenant.org);
    }
  }

  lemma WithoutAgents(agents: map<(Text, Text), Text>, org: Text, k: (Text, Text), name: Text)
    requires k.0 != org
    ensures (map j | j in agents[k := name] && j.0 != org :: agents[k := name][j])
         == (map j | j in agents && j.0 != org :: agents[j])[k := name]
  {
  }

  lemma WithoutRules(rules: map<(Text, Text, nat), RuleRow>, org: Text, k: (Text, Text, nat), row: RuleRow)
    requires k.0 != org
    ensures (map j | j in rules[k := row] && j.0 != org :: rules[k := row][j])
         == (map j | j in rules && j.0 != org :: rules[j])[k := row]
  {
  }

  lemma WithoutCommutes(tables: Tables, a: Text, b: Text)
    ensures WithoutOrg(WithoutOrg(tables, a), b) == WithoutOrg(WithoutOrg(tables, b), a)
  {
    var x, y := WithoutOrg(WithoutOrg(tables, a), b), WithoutOrg(WithoutOrg(tables, b), a);
    assert x.orgs == y.orgs && x.agents == y.agents && x.rules == y.rules;
  }

  /**
   Onboarding atomicity: after a run fails, the tenant tables are what the other events alone
   would have made of them, whatever was interleaved; its organisation is gone without a trace.
   */
  lemma FailedRunLeavesNoTrace(crypto: Crypto, boxes: iset<Box>, worlds: seq<World>, events: seq<Event>,
                               t: Tenant, i: nat, j: nat)
    requires IsExecution(crypto, boxes, worlds, events) && CollisionFree(crypto, boxes)
    requires i < j < |events| && events[i].Begin? && events[i].tenant == t && events[j] == Fail(t)
    requires forall k :: i < k <= j ==> t in worlds[k].runs
    ensures worlds[j + 1].tables == TablesWithout(worlds, events, t, i, j + 1)
    ensures worlds[j + 1].tables == WithoutOrg(worlds[j].tables, t.org)
  {
    OthersUnaffected(crypto, boxes, worlds, events, t, i, j);
    TableStep(crypto, boxes, worlds, events, j);
  }

  // ----- The auditor agrees with the audit -----

  /** Rule `k` of `t`, and the organisation with its key, are in both tables and the same in both. */
  ghost predicate RowKept(before: Tables, after: Tables, t: Tenant, k: nat) {
    && (t.org, t.agent, k) in before.rules && t.org in before.orgs
    && (t.org, t.agent, k) in after.rules && t.org in after.orgs
    && after.rules[(t.org, t.agent, k)] == before.rules[(t.org, t.agent, k)]
    && after.orgs[t.org] == before.orgs[t.org]
  }

  /** A row once stored for a live tenant stays as it is, and so does the organisation's key. */
  lemma {:induction false} RowStable(crypto: Crypto, boxes: iset<Box>, worlds: seq<World>, events: seq<Event>,
                                     t: Tenant, i: nat, j: nat, k: nat)
    requires IsExecution(crypto, boxes, worlds, events) && CollisionFree(crypto, boxes) && i <= j < |worlds|
    requires forall m :: i <= m <= j ==> t in worlds[m].runs
    requires RowKept(worlds[i].tables, worlds[i].tables, t, k)
    ensures RowKept(worlds[i].tables, worlds[j].tables, t, k)
    decreases j
  {
    if i < j {
      RowStable(crypto, boxes, worlds, events, t, i, j - 1, k);
      RowAcross(crypto, boxes, worlds, events, t, j - 1, k);
    }
  }

  lemma RowAcross(crypto: Crypto, boxes: iset<Box>, worlds: seq<World>, events: seq<Event>, t: Tenant, i: nat, k: nat)
    requires IsExecution(crypto, boxes, worlds, events) && CollisionFree(crypto, boxes) && i + 1 < |worlds|
    requires t in worlds[i].runs && t in worlds[i + 1].runs && RowKept(worlds[i].tables, worlds[i].tables, t, k)
    ensures RowKept(worlds[i].tables, worlds[i + 1].tables, t, k)
  {
    NextIndexIsFree(crypto, boxes, worlds, events, t, i);
    TableStep(crypto, boxes, worlds, events, i);
    RowStep(worlds[i], events[i], t, k);
  }

  /** The index under which a registered rule will be stored is not in use yet. */
  lemma NextIndexIsFree(crypto: Crypto, boxes: iset<Box>, worlds: seq<World>, events: seq<Event>, t: Tenant, i: nat)
    requires IsExecution(crypto, boxes, worlds, events) && CollisionFree(crypto, boxes) && i < |worlds|
    requires t in worlds[i].runs
    ensures worlds[i].runs[t].phase.Registered? ==>
      (t.org, t.agent, worlds[i].runs[t].phase.index) !in worlds[i].tables.rules
  {
    InvReachable(crypto, boxes, worlds, events, i);
    assert TenantInv(crypto, boxes, worlds[i], t);
  }

  lemma RowStep(w: World, e: Event, t: Tenant, k: nat)
    requires TablesInv(w) && Concerns(w, e) && t in w.runs && e != Fail(t)
    requires w.runs[t].phase.Registered? ==> (t.org, t.agent, w.runs[t].phase.index) !in w.tables.rules
    requires RowKept(w.tables, w.tables, t, k)
    ensures RowKept(w.tables, NextTables(w.tables, w.runs, e), t, k)
  {
    if !OfTenant(e, t) {
      OtherOrganisation(w, e, t);
    }
  }

  // ----- The verdict in every reachable state -----

  /**
   In every reachable state of the onboarding machine, a check of a live tenant all of whose
   on-chain rules are stored is accepted, and passes exactly when every policy in force holds of the
   decision; for a tenant whose onboarding completed these are all its policies.
   */
  lemma ReachableVerdict(crypto: Crypto, boxes: iset<Box>, worlds: seq<World>, events: seq<Event>, i: nat, t: Tenant,
                         actionId: Text, ipfsHash: Text, fields: Fields, rows: seq<(nat, RuleRow)>, a: CheckArgs)
    requires IsExecution(crypto, boxes, worlds, events) && CollisionFree(crypto, boxes) && Authentic(crypto)
    requires i < |worlds| && CheckInputs(crypto, boxes, worlds[i], t, actionId, ipfsHash, fields, rows, a)
    requires !worlds[i].runs[t].phase.Registered? && worlds[i].chain.receipts > 0
    ensures
      var call := CallFor(crypto.sha, t.org, t.agent, actionId, ipfsHash, a);
      && Accepts(crypto.sha, worlds[i].chain, call, t, Arrays(a))
      && DecidedBy(crypto.sha, worlds[i].chain, call, t, Arrays(a), Enforced(worlds[i].runs[t]), fields)
    ensures worlds[i].runs[t].status.Completed? ==> Enforced(worlds[i].runs[t]) == worlds[i].runs[t].specs
  {
    InvReachable(crypto, boxes, worlds, events, i);
    assert TenantInv(crypto, boxes, worlds[i], t);
    EndToEndVerdict(crypto, boxes, worlds[i], t, actionId, ipfsHash, fields, rows, a);
    ReadyAccepts(crypto, boxes, worlds[i], t, actionId, ipfsHash, fields, rows, a);
    CompletedEnforcesAll(worlds[i].runs[t]);
  }
}
