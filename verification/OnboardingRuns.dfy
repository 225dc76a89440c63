/**
 The onboarding machine and the code it stands for: however far a registration got, some events
 of the machine lead to the same boxes and the same tables.
 */
module OnboardingRuns {
  import opened Basics
  import opened Arc4
  import opened BoxKeys
  import opened PolicyContracts
  import opened TenantStores
  import opened Provisioning
  import opened Onboarding
  import opened OnboardingTheorems

  /** The world that the events lead to, if each of them is enabled when it happens. */
  function After(crypto: Crypto, w: World, events: seq<Event>): Option<World> {
    if events == [] then Some(w)
    else
      var n := |events| - 1;
      match After(crypto, w, events[..n])
      case None => None
      case Some(before) => if Enabled(crypto, before, events[n]) then Some(Next(crypto, before, events[n])) else None
  }

  lemma AfterSnoc(crypto: Crypto, w: World, events: seq<Event>, before: World, e: Event)
    requires After(crypto, w, events) == Some(before) && Enabled(crypto, before, e)
    ensures After(crypto, w, events + [e]) == Some(Next(crypto, before, e))
  {
    assert (events + [e])[..|events|] == events;
  }

  /** `w'` is `w` but for the chain, the tables and the run of `t`, which is now `run`. */
  ghost predicate Moved(w: World, w': World, t: Tenant, run: Run) {
    w'.runs == w.runs[t := run] && w'.issued == w.issued
  }

  lemma MovedTwice(u: World, v: World, w: World, t: Tenant, a: Run, b: Run)
    requires Moved(u, v, t, a) && Moved(v, w, t, b)
    ensures Moved(u, w, t, b)
  {
    assert u.runs[t := a][t := b] == u.runs[t := b];
  }

  lemma FrontFits(values: seq<Text>, n: nat)
    requires 0 < n <= |values| && ValuesFit(values[..n])
    ensures ValuesFit(values[..n - 1]) && Fits16(|values[n - 1]|)
  {
    var more, fewer := values[..n], values[..n - 1];
    assert more[n - 1] == values[n - 1];
    assert forall k :: 0 <= k < n - 1 ==> more[k] == fewer[k];
  }

  /** Adding the first `n` values one by one. */
  lemma {:induction false} SeedPath(crypto: Crypto, u: World, events: seq<Event>, w: World,
                                    t: Tenant, specs: seq<PolicySpec>, i: nat, n: nat)
    returns (events': seq<Event>, w': World)
    requires After(crypto, u, events) == Some(w)
    requires i < |specs| && t in w.runs && w.runs[t] == Run(specs, i, Seeding(0), InFlight)
    requires Fits16(|specs[i].field|) && n <= |SeedValues(specs[i])| && ValuesFit(SeedValues(specs[i])[..n])
    ensures After(crypto, u, events') == Some(w') && w'.tables == w.tables
    ensures w'.chain == Seeded(crypto.sha, w.chain, t, specs[i].field, SeedValues(specs[i])[..n])
    ensures Moved(w, w', t, Run(specs, i, Seeding(n), InFlight))
  {
    var values: seq<Text> := SeedValues(specs[i]);
    if n == 0 {
      events', w' := events, w;
      assert w.runs == w.runs[t := w.runs[t]];
    } else {
      FrontFits(values, n);
      var before, v := SeedPath(crypto, u, events, w, t, specs, i, n - 1);
      SeedOnce(crypto, v, t, specs, i, n - 1);
      AfterSnoc(crypto, u, before, v, Seed(t));
      events', w' := before + [Seed(t)], Next(crypto, v, Seed(t));
      SeededNext(crypto.sha, w.chain, t, specs[i].field, values, n - 1);
      MovedTwice(w, v, w', t, v.runs[t], w'.runs[t]);
    }
  }

  lemma SeedOnce(crypto: Crypto, v: World, t: Tenant, specs: seq<PolicySpec>, i: nat, n: nat)
    requires i < |specs| && n < |SeedValues(specs[i])| && t in v.runs && v.runs[t] == Run(specs, i, Seeding(n), InFlight)
    requires Fits16(|specs[i].field|) && Fits16(|SeedValues(specs[i])[n]|)
    ensures Enabled(crypto, v, Seed(t))
    ensures
      var w := Next(crypto, v, Seed(t));
      && w.chain == Apply(crypto.sha, v.chain, AddValue(t, specs[i].field, SeedValues(specs[i])[n]))
      && w.tables == v.tables && Moved(v, w, t, Run(specs, i, Seeding(n + 1), InFlight))
  {
  }

  /** However far the registration of policy `i` got, the machine can get there as well. */
  lemma RegistrationPath(crypto: Crypto, u: World, events: seq<Event>, w: World,
                         t: Tenant, specs: seq<PolicySpec>, i: nat, nonce: Bytes, p: Progress, c': Chain, tables': Tables)
    returns (events': seq<Event>, w': World, phase: Phase)
    requires After(crypto, u, events) == Some(w)
    requires i < |specs| && t in w.runs && w.runs[t] == Run(specs, i, Ready, InFlight) && t.org in w.tables.orgs
    requires Reached(crypto.sha, w.chain, w.tables, t.org, t.agent,
                     RowOf(crypto, w.tables.orgs[t.org].encKey, nonce, specs[i]), SeedValues(specs[i]), p, c', tables')
    ensures After(crypto, u, events') == Some(w') && w'.chain == c' && w'.tables == tables'
    ensures Moved(w, w', t, Run(specs, i, phase, InFlight))
    ensures p.Stored? ==> phase == Seeding(p.seeded)
  {
    assert Tenant(t.org, t.agent) == t;
    events', w', phase := events, w, Ready;
    assert w.runs == w.runs[t := w.runs[t]];
    if !p.Untouched? {
      AfterSnoc(crypto, u, events, w, ChainWrite(t, nonce));
      var v := Next(crypto, w, ChainWrite(t, nonce));
      events', w', phase := events + [ChainWrite(t, nonce)], v, v.runs[t].phase;
      if p.Stored? {
        AfterSnoc(crypto, u, events', v, StoreWrite(t));
        var stored := Next(crypto, v, StoreWrite(t));
        MovedTwice(w, v, stored, t, v.runs[t], stored.runs[t]);
        events', w' := SeedPath(crypto, u, events' + [StoreWrite(t)], stored, t, specs, i, p.seeded);
        phase := Seeding(p.seeded);
        MovedTwice(w, stored, w', t, stored.runs[t], w'.runs[t]);
      }
    }
  }

  // ----- A call of the onboarding endpoint -----

  /** The events lead from `u` to `w`, where the chain and the tables are as given and `i` policies of `t` are registered. */
  ghost predicate Underway(crypto: Crypto, u: World, events: seq<Event>, w: World, t: Tenant, specs: seq<PolicySpec>,
                           i: nat, chain: Chain, tables: Tables) {
    && After(crypto, u, events) == Some(w) && w.chain == chain && w.tables == tables
    && w.runs == u.runs[t := Run(specs, i, Ready, InFlight)]
  }

  /** The events lead from `u` to `w`, where the call is over. */
  ghost predicate Over(crypto: Crypto, u: World, events: seq<Event>, w: World, chain: Chain, tables: Tables,
                       runs: map<Tenant, Run>) {
    After(crypto, u, events) == Some(w) && w.chain == chain && w.tables == tables && w.runs == runs
  }

  lemma BeginPath(crypto: Crypto, u: World, t: Tenant, org: OrgRow, agentName: Text, specs: seq<PolicySpec>, tables: Tables)
    returns (events: seq<Event>, w: World)
    requires TablesInv(u) && Enabled(crypto, u, Begin(t, org, agentName, specs))
    requires tables == NextTables(u.tables, u.runs, Begin(t, org, agentName, specs))
    ensures Underway(crypto, u, events, w, t, specs, 0, u.chain, tables) && t !in u.runs
  {
    AfterSnoc(crypto, u, [], u, Begin(t, org, agentName, specs));
    events, w := [Begin(t, org, agentName, specs)], Next(crypto, u, Begin(t, org, agentName, specs));
    assert [] + events == events;
  }

  lemma AdvanceOnce(crypto: Crypto, v: World, t: Tenant, specs: seq<PolicySpec>, i: nat)
    requires i < |specs| && t in v.runs && v.runs[t] == Run(specs, i, Seeding(|SeedValues(specs[i])|), InFlight)
    ensures Enabled(crypto, v, Advance(t))
    ensures
      var w := Next(crypto, v, Advance(t));
      w.chain == v.chain && w.tables == v.tables && w.runs == v.runs[t := Run(specs, i + 1, Ready, InFlight)]
  {
  }

  lemma LastUpdate(runs: map<Tenant, Run>, t: Tenant, a: Run, b: Run)
    ensures runs[t := a][t := b] == runs[t := b]
  {
  }

  /** A registration that succeeds moves the run on by one policy. */
  lemma SuccessPath(crypto: Crypto, u: World, events: seq<Event>, w: World, t: Tenant, specs: seq<PolicySpec>, i: nat,
                    nonce: Bytes, p: Progress, c: Chain, tables: Tables, c': Chain, tables': Tables)
    returns (events': seq<Event>, w': World)
    requires Underway(crypto, u, events, w, t, specs, i, c, tables) && i < |specs| && t.org in tables.orgs
    requires Reached(crypto.sha, c, tables, t.org, t.agent, RowOf(crypto, tables.orgs[t.org].encKey, nonce, specs[i]),
                     SeedValues(specs[i]), p, c', tables')
    requires p == Stored(|SeedValues(specs[i])|)
    ensures Underway(crypto, u, events', w', t, specs, i + 1, c', tables')
  {
    var front, v, phase := RegistrationPath(crypto, u, events, w, t, specs, i, nonce, p, c', tables');
    AdvanceOnce(crypto, v, t, specs, i);
    AfterSnoc(crypto, u, front, v, Advance(t));
    events', w' := front + [Advance(t)], Next(crypto, v, Advance(t));
    LastUpdate(u.runs, t, Run(specs, i, Ready, InFlight), v.runs[t]);
    LastUpdate(u.runs, t, v.runs[t], w'.runs[t]);
  }

  /** A registration that fails, however far it got, is followed by the rollback. */
  lemma FailurePath(crypto: Crypto, u: World, events: seq<Event>, w: World, t: Tenant, specs: seq<PolicySpec>, i: nat,
                    nonce: Bytes, p: Progress, c: Chain, tables: Tables, c': Chain, tables': Tables)
    returns (events': seq<Event>, w': World)
    requires Underway(crypto, u, events, w, t, specs, i, c, tables) && i < |specs| && t.org in tables.orgs && t !in u.runs
    requires Reached(crypto.sha, c, tables, t.org, t.agent, RowOf(crypto, tables.orgs[t.org].encKey, nonce, specs[i]),
                     SeedValues(specs[i]), p, c', tables')
    ensures Over(crypto, u, events', w', c', WithoutOrg(tables', t.org), u.runs)
  {
    var front, v, phase := RegistrationPath(crypto, u, events, w, t, specs, i, nonce, p, c', tables');
    AfterSnoc(crypto, u, front, v, Fail(t));
    events', w' := front + [Fail(t)], Next(crypto, v, Fail(t));
    assert u.runs[t := v.runs[t]] - {t} == u.runs;
  }

  lemma FinishPath(crypto: Crypto, u: World, events: seq<Event>, w: World, t: Tenant, specs: seq<PolicySpec>,
                   c: Chain, tables: Tables)
    returns (events': seq<Event>, w': World)
    requires Underway(crypto, u, events, w, t, specs, |specs|, c, tables)
    ensures Over(crypto, u, events', w', c, tables, u.runs[t := Run(specs, |specs|, Ready, Completed)])
  {
    AfterSnoc(crypto, u, events, w, Finish(t));
    events', w' := events + [Finish(t)], Next(crypto, w, Finish(t));
  }

  // ----- Runs of the code are executions of the machine -----

  /** The events touch only boxes of `boxes`. */
  ghost predicate StaysWithin(crypto: Crypto, boxes: iset<Box>, w: World, events: seq<Event>)
    requires After(crypto, w, events).Some?
    decreases |events|
  {
    events == [] ||
    var n := |events| - 1;
    var before := After(crypto, w, events[..n]).value;
    StaysWithin(crypto, boxes, w, events[..n]) && forall b :: b in Touched(crypto, before, events[n]) ==> b in boxes
  }

  /** An execution followed by the events of a call is an execution again, so all its theorems apply. */
  lemma {:induction false} Extend(crypto: Crypto, boxes: iset<Box>, worlds: seq<World>, events: seq<Event>,
                                  more: seq<Event>, w: World)
    returns (worlds': seq<World>)
    requires IsExecution(crypto, boxes, worlds, events)
    requires After(crypto, worlds[|events|], more) == Some(w) && StaysWithin(crypto, boxes, worlds[|events|], more)
    ensures IsExecution(crypto, boxes, worlds', events + more) && worlds'[|events + more|] == w
    decreases |more|
  {
    if more == [] {
      worlds' := worlds;
      assert events + more == events;
    } else {
      var n := |more| - 1;
      var before := After(crypto, worlds[|events|], more[..n]).value;
      var front := Extend(crypto, boxes, worlds, events, more[..n], before);
      worlds' := front + [w];
      assert events + more == (events + more[..n]) + [more[n]];
      StepExtends(crypto, boxes, front, events + more[..n], more[n], w);
    }
  }

  lemma StepExtends(crypto: Crypto, boxes: iset<Box>, worlds: seq<World>, events: seq<Event>, e: Event, w: World)
    requires IsExecution(crypto, boxes, worlds, events) && IsStep(crypto, boxes, worlds[|events|], e, w)
    ensures IsExecution(crypto, boxes, worlds + [w], events + [e])
  {
    var worlds', events' := worlds + [w], events + [e];
    assert worlds'[..|events'|] == worlds && events'[..|events|] == events;
    assert worlds'[|events|] == worlds[|events|] && worlds'[|events'|] == w;
  }
}
