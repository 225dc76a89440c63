/**
 Every execution of the onboarding machine can go on to onboard another tenant with any encodable
 policies, so the theorems about completed tenants speak of every such tenant.
 */
module OnboardingCompletes {
  import opened Basics
  import opened Arc4
  import opened BoxKeys
  import opened TenantStores
  import opened Provisioning
  import opened Onboarding
  import opened OnboardingTheorems
  import opened OnboardingRuns

  /** All boxes that registering the policies writes. */
  ghost predicate Covers(boxes: iset<Box>, t: Tenant, specs: seq<PolicySpec>) {
    && CountBox(t) in boxes && |specs| < 0x1_0000_0000_0000_0000
    && (forall i: uint64 :: i < |specs| ==> RuleBox(t, i) in boxes)
    && forall field: ArcString, value: ArcString :: Declared(specs, |specs|, field, value) ==> SetBox(t, field, value) in boxes
  }

  ghost predicate Encodable(crypto: Crypto, t: Tenant, key: Bytes, specs: seq<PolicySpec>) {
    forall spec :: spec in specs ==> SpecEncodable(crypto, t.org, t.agent, key, [], spec)
  }

  /** The execution ends with the run of `t` at `run`; the key, the receipts and the other runs are as given. */
  ghost predicate At(crypto: Crypto, boxes: iset<Box>, worlds: seq<World>, events: seq<Event>, t: Tenant, run: Run,
                     org: OrgRow, receipts: nat, others: map<Tenant, Run>) {
    && IsExecution(crypto, boxes, worlds, events)
    && var w := worlds[|events|];
       && w.runs == others[t := run] && w.chain.receipts == receipts
       && t.org in w.tables.orgs && w.tables.orgs[t.org] == org
  }

  /** One more event of `t`, which changes only its run. */
  lemma Step(crypto: Crypto, boxes: iset<Box>, worlds: seq<World>, events: seq<Event>, t: Tenant, run: Run,
             org: OrgRow, receipts: nat, others: map<Tenant, Run>, e: Event, run': Run)
    returns (worlds': seq<World>, events': seq<Event>)
    requires At(crypto, boxes, worlds, events, t, run, org, receipts, others)
    requires e.ChainWrite? || e.StoreWrite? || e.Seed? || e.Advance? || e.Finish?
    requires Enabled(crypto, worlds[|events|], e) && e.tenant == t
    requires forall b :: b in Touched(crypto, worlds[|events|], e) ==> b in boxes
    requires NextRuns(crypto, worlds[|events|], e)[t] == run'
    ensures At(crypto, boxes, worlds', events', t, run', org, receipts, others)
    ensures worlds <= worlds'
  {
    var w := Next(crypto, worlds[|events|], e);
    StepExtends(crypto, boxes, worlds, events, e, w);
    worlds', events' := worlds + [w], events + [e];
    assert worlds'[|events'|] == w;
    LastUpdate(others, t, run, run');
  }

  /** The next rule of the tenant can be written on-chain, and goes to the index of its policy. */
  lemma RuleCanBeWritten(crypto: Crypto, boxes: iset<Box>, w: World, t: Tenant, specs: seq<PolicySpec>, i: nat, key: Bytes)
    requires TenantInv(crypto, boxes, w, t) && w.runs[t] == Run(specs, i, Ready, InFlight) && i < |specs|
    requires t.org in w.tables.orgs && w.tables.orgs[t.org].encKey == key
    requires Covers(boxes, t, specs) && Encodable(crypto, t, key, specs)
    ensures Enabled(crypto, w, ChainWrite(t, []))
    ensures forall b :: b in Touched(crypto, w, ChainWrite(t, [])) ==> b in boxes
    ensures NextRuns(crypto, w, ChainWrite(t, []))[t].phase == Registered(i, RowOf(crypto, key, [], specs[i]))
  {
    assert specs[i] in specs;
    var n: uint64 := i;
    assert RuleBox(t, n) in boxes;
  }

  lemma WriteRule(crypto: Crypto, boxes: iset<Box>, worlds: seq<World>, events: seq<Event>, t: Tenant,
                  specs: seq<PolicySpec>, i: nat, org: OrgRow, receipts: nat, others: map<Tenant, Run>)
    returns (worlds': seq<World>, events': seq<Event>)
    requires At(crypto, boxes, worlds, events, t, Run(specs, i, Ready, InFlight), org, receipts, others)
    requires CollisionFree(crypto, boxes) && Covers(boxes, t, specs) && Encodable(crypto, t, org.encKey, specs) && i < |specs|
    ensures At(crypto, boxes, worlds', events', t, Run(specs, i, Seeding(0), InFlight), org, receipts, others)
    ensures worlds <= worlds'
  {
    InvReachable(crypto, boxes, worlds, events, |events|);
    RuleCanBeWritten(crypto, boxes, worlds[|events|], t, specs, i, org.encKey);
    var registered := Run(specs, i, Registered(i, RowOf(crypto, org.encKey, [], specs[i])), InFlight);
    worlds', events' := Step(crypto, boxes, worlds, events, t, Run(specs, i, Ready, InFlight), org, receipts, others,
                             ChainWrite(t, []), registered);
    worlds', events' := Step(crypto, boxes, worlds', events', t, registered, org, receipts, others,
                             StoreWrite(t), Run(specs, i, Seeding(0), InFlight));
  }

  lemma ValueCanBeSeeded(crypto: Crypto, boxes: iset<Box>, w: World, t: Tenant, specs: seq<PolicySpec>, i: nat, n: nat,
                         key: Bytes)
    requires t in w.runs && i < |specs| && n < |SeedValues(specs[i])| && w.runs[t] == Run(specs, i, Seeding(n), InFlight)
    requires Covers(boxes, t, specs) && Encodable(crypto, t, key, specs)
    ensures Enabled(crypto, w, Seed(t))
    ensures forall b :: b in Touched(crypto, w, Seed(t)) ==> b in boxes
    ensures NextRuns(crypto, w, Seed(t))[t] == Run(specs, i, Seeding(n + 1), InFlight)
  {
    assert specs[i] in specs;
    var field: ArcString, value: ArcString := specs[i].field, SeedValues(specs[i])[n];
    assert Declared(specs, |specs|, field, value);
  }

  lemma {:induction false} SeedAll(crypto: Crypto, boxes: iset<Box>, worlds: seq<World>, events: seq<Event>, t: Tenant,
                                   specs: seq<PolicySpec>, i: nat, n: nat, org: OrgRow, receipts: nat,
                                   others: map<Tenant, Run>)
    returns (worlds': seq<World>, events': seq<Event>)
    requires At(crypto, boxes, worlds, events, t, Run(specs, i, Seeding(0), InFlight), org, receipts, others)
    requires Covers(boxes, t, specs) && Encodable(crypto, t, org.encKey, specs) && i < |specs| && n <= |SeedValues(specs[i])|
    ensures At(crypto, boxes, worlds', events', t, Run(specs, i, Seeding(n), InFlight), org, receipts, others)
    ensures worlds <= worlds'
  {
    worlds', events' := worlds, events;
    if n > 0 {
      var front, before := SeedAll(crypto, boxes, worlds, events, t, specs, i, n - 1, org, receipts, others);
      ValueCanBeSeeded(crypto, boxes, front[|before|], t, specs, i, n - 1, org.encKey);
      worlds', events' := Step(crypto, boxes, front, before, t, Run(specs, i, Seeding(n - 1), InFlight), org, receipts,
                               others, Seed(t), Run(specs, i, Seeding(n), InFlight));
    }
  }

  lemma RegisterOne(crypto: Crypto, boxes: iset<Box>, worlds: seq<World>, events: seq<Event>, t: Tenant,
                    specs: seq<PolicySpec>, i: nat, org: OrgRow, receipts: nat, others: map<Tenant, Run>)
    returns (worlds': seq<World>, events': seq<Event>)
    requires At(crypto, boxes, worlds, events, t, Run(specs, i, Ready, InFlight), org, receipts, others)
    requires CollisionFree(crypto, boxes) && Covers(boxes, t, specs) && Encodable(crypto, t, org.encKey, specs) && i < |specs|
    ensures At(crypto, boxes, worlds', events', t, Run(specs, i + 1, Ready, InFlight), org, receipts, others)
    ensures worlds <= worlds'
  {
    worlds', events' := WriteRule(crypto, boxes, worlds, events, t, specs, i, org, receipts, others);
    var k := |SeedValues(specs[i])|;
    worlds', events' := SeedAll(crypto, boxes, worlds', events', t, specs, i, k, org, receipts, others);
    worlds', events' := Step(crypto, boxes, worlds', events', t, Run(specs, i, Seeding(k), InFlight), org, receipts,
                             others, Advance(t), Run(specs, i + 1, Ready, InFlight));
  }

  /** From policy `m` on, the policies up to `n` can be registered one by one. */
  lemma {:induction false} RegisterRest(crypto: Crypto, boxes: iset<Box>, worlds: seq<World>, events: seq<Event>, t: Tenant,
                                        specs: seq<PolicySpec>, m: nat, n: nat, org: OrgRow, receipts: nat,
                                        others: map<Tenant, Run>)
    returns (worlds': seq<World>, events': seq<Event>)
    requires At(crypto, boxes, worlds, events, t, Run(specs, m, Ready, InFlight), org, receipts, others)
    requires CollisionFree(crypto, boxes) && Covers(boxes, t, specs) && Encodable(crypto, t, org.encKey, specs)
    requires m <= n <= |specs|
    ensures At(crypto, boxes, worlds', events', t, Run(specs, n, Ready, InFlight), org, receipts, others)
    ensures worlds <= worlds'
    decreases n
  {
    worlds', events' := worlds, events;
    if m < n {
      var front, before := RegisterRest(crypto, boxes, worlds, events, t, specs, m, n - 1, org, receipts, others);
      worlds', events' := RegisterOne(crypto, boxes, front, before, t, specs, n - 1, org, receipts, others);
      assert worlds <= front <= worlds';
    }
  }

  /** A tenant that may begin can complete: no state of the machine blocks the onboarding of encodable policies. */
  lemma OnboardingCanComplete(crypto: Crypto, boxes: iset<Box>, worlds: seq<World>, events: seq<Event>,
                              t: Tenant, org: OrgRow, agentName: Text, specs: seq<PolicySpec>)
    returns (worlds': seq<World>, events': seq<Event>)
    requires IsExecution(crypto, boxes, worlds, events) && CollisionFree(crypto, boxes)
    requires Enabled(crypto, worlds[|events|], Begin(t, org, agentName, specs))
    requires Covers(boxes, t, specs) && Encodable(crypto, t, org.encKey, specs)
    ensures At(crypto, boxes, worlds', events', t, Run(specs, |specs|, Ready, Completed), org,
               worlds[|events|].chain.receipts, worlds[|events|].runs)
    ensures worlds <= worlds'
  {
    var u, begin := worlds[|events|], Begin(t, org, agentName, specs);
    var w := Next(crypto, u, begin);
    StepExtends(crypto, boxes, worlds, events, begin, w);
    worlds', events' := worlds + [w], events + [begin];
    assert worlds'[|events'|] == w;
    worlds', events' := RegisterRest(crypto, boxes, worlds', events', t, specs, 0, |specs|, org, u.chain.receipts, u.runs);
    worlds', events' := Step(crypto, boxes, worlds', events', t, Run(specs, |specs|, Ready, InFlight), org,
                             u.chain.receipts, u.runs, Finish(t), Run(specs, |specs|, Ready, Completed));
  }
}
