/**
 What stays as it is while an execution of the onboarding machine goes on: live tenants, the rules
 that are stored for them, and everything about a tenant whose onboarding completed.
 */
module OnboardingStability {
  import opened Basics
  import opened BoxKeys
  import opened TenantStores
  import opened ContractClient
  import opened Provisioning
  import opened Onboarding
  import opened OnboardingProof
  import opened OnboardingTheorems
  import opened PolicyVerdict

  // ----- Live tenants -----

  /** A tenant that is gone never comes back, because its agent id is used. */
  lemma {:induction false} GoneForGood(crypto: Crypto, boxes: iset<Box>, worlds: seq<World>, events: seq<Event>,
                                       t: Tenant, i: nat, j: nat)
    requires IsExecution(crypto, boxes, worlds, events) && i <= j < |worlds|
    requires t.agent in worlds[i].issued && t !in worlds[i].runs
    ensures t.agent in worlds[j].issued && t !in worlds[j].runs
    decreases j
  {
    if i < j {
      GoneForGood(crypto, boxes, worlds, events, t, i, j - 1);
      StepAt(crypto, boxes, worlds, events, j - 1);
      StaysGone(crypto, boxes, worlds[j - 1], events[j - 1], worlds[j], t);
    }
  }

  lemma StaysGone(crypto: Crypto, boxes: iset<Box>, w: World, e: Event, v: World, t: Tenant)
    requires IsStep(crypto, boxes, w, e, v) && t.agent in w.issued && t !in w.runs
    ensures t.agent in v.issued && t !in v.runs
  {
  }

  lemma {:induction false} IssuedStays(crypto: Crypto, boxes: iset<Box>, worlds: seq<World>, events: seq<Event>,
                                       t: Tenant, i: nat, j: nat)
    requires IsExecution(crypto, boxes, worlds, events) && i <= j < |worlds| && t.agent in worlds[i].issued
    ensures t.agent in worlds[j].issued
    decreases j
  {
    if i < j {
      IssuedStays(crypto, boxes, worlds, events, t, i, j - 1);
      StepAt(crypto, boxes, worlds, events, j - 1);
    }
  }

  /** So a tenant that is live in two states is live in all states between them. */
  lemma LiveBetween(crypto: Crypto, boxes: iset<Box>, worlds: seq<World>, events: seq<Event>, t: Tenant, i: nat, j: nat)
    requires IsExecution(crypto, boxes, worlds, events) && CollisionFree(crypto, boxes) && i <= j < |worlds|
    requires t in worlds[i].runs && t in worlds[j].runs
    ensures forall m :: i <= m <= j ==> t in worlds[m].runs
  {
    InvReachable(crypto, boxes, worlds, events, i);
    assert TenantInv(crypto, boxes, worlds[i], t);
    forall m | i <= m <= j
      ensures t in worlds[m].runs
    {
      IssuedStays(crypto, boxes, worlds, events, t, i, m);
      if t !in worlds[m].runs {
        GoneForGood(crypto, boxes, worlds, events, t, m, j);
      }
    }
  }

  // ----- Stored rules -----

  /** The listing of a live tenant has its stored rules by index, from zero on. */
  lemma ListingOfLive(crypto: Crypto, boxes: iset<Box>, worlds: seq<World>, events: seq<Event>, t: Tenant, i: nat,
                      rows: seq<(nat, RuleRow)>)
    requires IsExecution(crypto, boxes, worlds, events) && CollisionFree(crypto, boxes) && i < |worlds|
    requires t in worlds[i].runs && IsListing(rows, worlds[i].tables, t.org, t.agent)
    ensures |rows| == InStore(worlds[i].runs[t]) && t.org in worlds[i].tables.orgs
    ensures HasPrefix(worlds[i].tables, t.org, t.agent, |rows|)
    ensures forall k :: 0 <= k < |rows| ==> rows[k] == (k, worlds[i].tables.rules[(t.org, t.agent, k)])
  {
    InvReachable(crypto, boxes, worlds, events, i);
    assert TenantInv(crypto, boxes, worlds[i], t);
    ListingOfPrefix(rows, worlds[i].tables, t.org, t.agent, InStore(worlds[i].runs[t]));
  }

  /** Each stored rule of a live tenant is its policy under the organisation's key. */
  lemma RowOfLive(crypto: Crypto, boxes: iset<Box>, worlds: seq<World>, events: seq<Event>, t: Tenant, i: nat, k: nat)
    returns (nonce: Bytes)
    requires IsExecution(crypto, boxes, worlds, events) && CollisionFree(crypto, boxes) && i < |worlds|
    requires t in worlds[i].runs && k < InStore(worlds[i].runs[t])
    ensures k < |worlds[i].runs[t].specs| && t.org in worlds[i].tables.orgs
    ensures (t.org, t.agent, k) in worlds[i].tables.rules
    ensures worlds[i].tables.rules[(t.org, t.agent, k)]
         == RowOf(crypto, worlds[i].tables.orgs[t.org].encKey, nonce, worlds[i].runs[t].specs[k])
  {
    var w := worlds[i];
    InvReachable(crypto, boxes, worlds, events, i);
    assert TenantInv(crypto, boxes, w, t);
    var key, row, spec := w.tables.orgs[t.org].encKey, w.tables.rules[(t.org, t.agent, k)], w.runs[t].specs[k];
    assert MirrorAgrees(crypto, w.chain, w.tables, t, k, spec);
    nonce :| row == RowOf(crypto, key, nonce, spec);
  }

  lemma ListedRowStays(crypto: Crypto, boxes: iset<Box>, worlds: seq<World>, events: seq<Event>, t: Tenant, i: nat, j: nat,
                       k: nat)
    requires IsExecution(crypto, boxes, worlds, events) && CollisionFree(crypto, boxes) && i <= j < |worlds|
    requires t in worlds[i].runs && t in worlds[j].runs
    requires (t.org, t.agent, k) in worlds[i].tables.rules && t.org in worlds[i].tables.orgs
    ensures RowKept(worlds[i].tables, worlds[j].tables, t, k)
  {
    LiveBetween(crypto, boxes, worlds, events, t, i, j);
    RowStable(crypto, boxes, worlds, events, t, i, j, k);
  }

  /** The rules listed for a live tenant come first in every later listing. */
  lemma ListingGrows(crypto: Crypto, boxes: iset<Box>, worlds: seq<World>, events: seq<Event>, t: Tenant, i: nat, j: nat,
                     rows: seq<(nat, RuleRow)>, later: seq<(nat, RuleRow)>)
    requires IsExecution(crypto, boxes, worlds, events) && CollisionFree(crypto, boxes) && i <= j < |worlds|
    requires t in worlds[i].runs && t in worlds[j].runs
    requires IsListing(rows, worlds[i].tables, t.org, t.agent) && IsListing(later, worlds[j].tables, t.org, t.agent)
    ensures |rows| == InStore(worlds[i].runs[t]) && |later| == InStore(worlds[j].runs[t])
    ensures rows <= later
  {
    ListingOfLive(crypto, boxes, worlds, events, t, i, rows);
    ListingOfLive(crypto, boxes, worlds, events, t, j, later);
    if |later| < |rows| {
      ListedRowStays(crypto, boxes, worlds, events, t, i, j, |later|);
      assert false;
    }
    forall k: nat | k < |rows|
      ensures later[k] == rows[k]
    {
      ListedRowStays(crypto, boxes, worlds, events, t, i, j, k);
    }
  }

  /** The key of a tenant with a stored rule stays. */
  lemma KeyStays(crypto: Crypto, boxes: iset<Box>, worlds: seq<World>, events: seq<Event>, t: Tenant, i: nat, j: nat)
    requires IsExecution(crypto, boxes, worlds, events) && CollisionFree(crypto, boxes) && i <= j < |worlds|
    requires t in worlds[i].runs && t in worlds[j].runs && InStore(worlds[i].runs[t]) > 0
    ensures t.org in worlds[i].tables.orgs && t.org in worlds[j].tables.orgs
    ensures worlds[j].tables.orgs[t.org] == worlds[i].tables.orgs[t.org]
  {
    InvReachable(crypto, boxes, worlds, events, i);
    assert TenantInv(crypto, boxes, worlds[i], t);
    ListedRowStays(crypto, boxes, worlds, events, t, i, j, 0);
  }

  // ----- Completed tenants -----

  lemma CompletedStep(crypto: Crypto, boxes: iset<Box>, w: World, e: Event, v: World, t: Tenant)
    requires Inv(crypto, boxes, w) && IsStep(crypto, boxes, w, e, v) && t in w.runs && w.runs[t].status.Completed?
    ensures t in v.runs && v.runs[t] == w.runs[t]
  {
    if e.Crash? || e.Audit? || e.tenant != t {
      OtherRows(crypto, w, e, t);
    }
  }

  lemma {:induction false} CompletedStays(crypto: Crypto, boxes: iset<Box>, worlds: seq<World>, events: seq<Event>,
                                          t: Tenant, i: nat, j: nat)
    requires IsExecution(crypto, boxes, worlds, events) && CollisionFree(crypto, boxes) && i <= j < |worlds|
    requires t in worlds[i].runs && worlds[i].runs[t].status.Completed?
    ensures t in worlds[j].runs && worlds[j].runs[t] == worlds[i].runs[t]
    decreases j
  {
    if i < j {
      CompletedStays(crypto, boxes, worlds, events, t, i, j - 1);
      StepAt(crypto, boxes, worlds, events, j - 1);
      InvReachable(crypto, boxes, worlds, events, j - 1);
      CompletedStep(crypto, boxes, worlds[j - 1], events[j - 1], worlds[j], t);
    }
  }

  /** What was gathered for a check of a completed tenant still serves in every later state. */
  lemma InputsStay(crypto: Crypto, boxes: iset<Box>, worlds: seq<World>, events: seq<Event>, i: nat, j: nat, t: Tenant,
                   actionId: Text, ipfsHash: Text, fields: Fields, a: CheckArgs)
    requires IsExecution(crypto, boxes, worlds, events) && CollisionFree(crypto, boxes) && i <= j < |worlds|
    requires CheckInputs(crypto, boxes, worlds[i], t, actionId, ipfsHash, fields,
                         Listing(worlds[i].tables, t.org, t.agent), a)
    requires worlds[i].runs[t].status.Completed?
    ensures t in worlds[j].runs && worlds[j].runs[t] == worlds[i].runs[t]
    ensures CheckInputs(crypto, boxes, worlds[j], t, actionId, ipfsHash, fields,
                        Listing(worlds[j].tables, t.org, t.agent), a)
  {
    var w, w' := worlds[i], worlds[j];
    var rows, later := Listing(w.tables, t.org, t.agent), Listing(w'.tables, t.org, t.agent);
    CompletedStays(crypto, boxes, worlds, events, t, i, j);
    ListingIsListing(w'.tables, t.org, t.agent);
    ListingGrows(crypto, boxes, worlds, events, t, i, j, rows, later);
    assert rows == later;
    KeyStays(crypto, boxes, worlds, events, t, i, j);
  }
}
