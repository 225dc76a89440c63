/**
 Every run of the onboarding machine keeps the mirror invariant, provided that no two of the
 boxes it touches share a name.
 */
module OnboardingProof {
  import opened Basics
  import opened Arc4
  import opened BoxKeys
  import opened PolicyContracts
  import opened TenantIsolation
  import opened TenantStores
  import opened Provisioning
  import opened Onboarding

  // ----- Frames -----

  /** The two chains agree on the boxes of `t`, apart from those in `except`. */
  ghost predicate SameContent(crypto: Crypto, boxes: iset<Box>, c: Chain, c': Chain, t: Tenant, except: set<Box>) {
    forall box :: box in boxes && !box.AnchorBox? && box.tenant == t && box !in except ==>
      ContentOf(crypto.sha, c', box) == ContentOf(crypto.sha, c, box)
  }

  ghost predicate SameRows(tables: Tables, tables': Tables, t: Tenant) {
    && t.org in tables.orgs && t.org in tables'.orgs && tables'.orgs[t.org] == tables.orgs[t.org]
    && ((t.org, t.agent) in tables.agents ==> (t.org, t.agent) in tables'.agents)
    && (forall i: nat :: (t.org, t.agent, i) in tables'.rules <==> (t.org, t.agent, i) in tables.rules)
    && (forall i: nat :: (t.org, t.agent, i) in tables.rules ==>
          tables'.rules[(t.org, t.agent, i)] == tables.rules[(t.org, t.agent, i)])
  }

  lemma SetKept(crypto: Crypto, boxes: iset<Box>, c: Chain, c': Chain, t: Tenant, except: set<Box>,
                field: ArcString, value: ArcString)
    requires SameContent(crypto, boxes, c, c', t, except)
    requires SetBox(t, field, value) in boxes && SetBox(t, field, value) !in except
    ensures InSet(crypto.sha, c', t, field, value) == InSet(crypto.sha, c, t, field, value)
  {
    var box := SetBox(t, field, value);
    assert ContentOf(crypto.sha, c', box) == ContentOf(crypto.sha, c, box);
  }

  lemma RuleKept(crypto: Crypto, boxes: iset<Box>, c: Chain, c': Chain, t: Tenant, except: set<Box>, i: uint64)
    requires SameContent(crypto, boxes, c, c', t, except) && RuleBox(t, i) in boxes && RuleBox(t, i) !in except
    ensures RuleAt(crypto.sha, c', t, i) == RuleAt(crypto.sha, c, t, i)
  {
    var box := RuleBox(t, i);
    assert ContentOf(crypto.sha, c', box) == ContentOf(crypto.sha, c, box);
  }

  lemma CountKept(crypto: Crypto, boxes: iset<Box>, c: Chain, c': Chain, t: Tenant, except: set<Box>)
    requires SameContent(crypto, boxes, c, c', t, except) && CountBox(t) in boxes && CountBox(t) !in except
    ensures RuleCount(crypto.sha, c', t) == RuleCount(crypto.sha, c, t)
  {
    assert ContentOf(crypto.sha, c', CountBox(t)) == ContentOf(crypto.sha, c, CountBox(t));
  }

  lemma ChainPartKept(crypto: Crypto, boxes: iset<Box>, c: Chain, c': Chain, t: Tenant, run: Run)
    requires ChainPart(crypto, boxes, c, t, run) && SameContent(crypto, boxes, c, c', t, {})
    ensures ChainPart(crypto, boxes, c', t, run)
  {
    CountKept(crypto, boxes, c, c', t, {});
    forall field: ArcString, value: ArcString | SetBox(t, field, value) in boxes
      ensures InSet(crypto.sha, c', t, field, value) == InSet(crypto.sha, c, t, field, value)
    {
      SetKept(crypto, boxes, c, c', t, {}, field, value);
    }
  }

  /** The stored rows keep mirroring as long as their on-chain rules are not overwritten. */
  lemma RowsKept(crypto: Crypto, boxes: iset<Box>, c: Chain, c': Chain, tables: Tables, tables': Tables,
                 t: Tenant, run: Run, except: set<Box>)
    requires ChainPart(crypto, boxes, c, t, run) && MirrorPart(crypto, c, tables, t, run)
    requires SameContent(crypto, boxes, c, c', t, except) && SameRows(tables, tables', t)
    requires forall i: uint64 :: i < OnChain(run) ==> RuleBox(t, i) !in except
    ensures forall i: uint64 :: i < OnChain(run) ==> RuleAt(crypto.sha, c', t, i) == RuleAt(crypto.sha, c, t, i)
    ensures forall i :: 0 <= i < InStore(run) ==> MirrorAgrees(crypto, c', tables', t, i, run.specs[i])
    ensures HasPrefix(tables', t.org, t.agent, InStore(run))
  {
    forall i: uint64 | i < OnChain(run)
      ensures RuleAt(crypto.sha, c', t, i) == RuleAt(crypto.sha, c, t, i)
    {
      RuleKept(crypto, boxes, c, c', t, except, i);
    }
    forall i | 0 <= i < InStore(run)
      ensures MirrorAgrees(crypto, c', tables', t, i, run.specs[i])
    {
      assert MirrorAgrees(crypto, c, tables, t, i, run.specs[i]);
      var n: uint64 := i;
    }
  }

  lemma MirrorPartKept(crypto: Crypto, boxes: iset<Box>, c: Chain, c': Chain, tables: Tables, tables': Tables,
                       t: Tenant, run: Run)
    requires ChainPart(crypto, boxes, c, t, run) && MirrorPart(crypto, c, tables, t, run)
    requires SameContent(crypto, boxes, c, c', t, {}) && SameRows(tables, tables', t)
    ensures MirrorPart(crypto, c', tables', t, run)
  {
    RowsKept(crypto, boxes, c, c', tables, tables', t, run, {});
    if run.phase.Registered? {
      var n: uint64 := run.done;
      assert RuleAt(crypto.sha, c', t, n) == RuleAt(crypto.sha, c, t, n);
    }
  }

  // ----- What an event leaves alone -----

  /** The event touches only boxes of `boxes`, whose names are apart. */
  ghost predicate Within(crypto: Crypto, boxes: iset<Box>, w: World, e: Event) {
    && NamesApart(crypto.sha, boxes) && Enabled(crypto, w, e)
    && forall b :: b in Touched(crypto, w, e) ==> b in boxes
  }

  lemma TouchedIsOwn(crypto: Crypto, w: World, e: Event, box: Box)
    requires Enabled(crypto, w, e) && box in Touched(crypto, w, e)
    ensures !e.Crash? && !e.Audit? && !box.AnchorBox? && box.tenant == e.tenant
    ensures e.Begin? || e.tenant in w.runs
  {
  }

  /** A box that the event does not write keeps its content, since names are apart. */
  lemma ContentKept(crypto: Crypto, boxes: iset<Box>, w: World, e: Event, box: Box)
    requires Within(crypto, boxes, w, e) && box in boxes && box !in Touched(crypto, w, e)
    ensures ContentOf(crypto.sha, Next(crypto, w, e).chain, box) == ContentOf(crypto.sha, w.chain, box)
  {
    match EffectOf(crypto, w, e)
    case Some(effect) => WritesAreLocal(crypto.sha, w.chain, effect, box);
    case None =>
  }

  lemma OnlyTouchedChange(crypto: Crypto, boxes: iset<Box>, w: World, e: Event, t: Tenant)
    requires Within(crypto, boxes, w, e)
    ensures SameContent(crypto, boxes, w.chain, Next(crypto, w, e).chain, t, Touched(crypto, w, e))
    ensures e.Crash? || e.Audit? || e.tenant != t ==>
      SameContent(crypto, boxes, w.chain, Next(crypto, w, e).chain, t, {})
  {
    forall box | box in boxes && !box.AnchorBox? && box.tenant == t && box !in Touched(crypto, w, e)
      ensures ContentOf(crypto.sha, Next(crypto, w, e).chain, box) == ContentOf(crypto.sha, w.chain, box)
    {
      ContentKept(crypto, boxes, w, e, box);
    }
    if e.Crash? || e.Audit? || e.tenant != t {
      forall box | box in Touched(crypto, w, e)
        ensures box.AnchorBox? || box.tenant != t
      {
        TouchedIsOwn(crypto, w, e, box);
      }
    }
  }

  // ----- Tenants other than the acting one -----

  lemma OtherRows(crypto: Crypto, w: World, e: Event, u: Tenant)
    requires Enabled(crypto, w, e) && TablesInv(w) && u in w.runs
    requires e.Crash? || e.Audit? || e.tenant != u
    ensures SameRows(w.tables, NextTables(w.tables, w.runs, e), u)
    ensures u in NextRuns(crypto, w, e)
    ensures NextRuns(crypto, w, e)[u] == w.runs[u]
      || (w.runs[u].status.InFlight? && NextRuns(crypto, w, e)[u] == w.runs[u].(status := Crashed))
  {
    if !e.Crash? && !e.Audit? {
      assert e.Begin? || e.tenant in w.runs;
      assert e.tenant.org != u.org;
    }
  }

  lemma OthersFramed(crypto: Crypto, boxes: iset<Box>, w: World, e: Event, u: Tenant)
    requires Within(crypto, boxes, w, e) && TablesInv(w) && TenantInv(crypto, boxes, w, u)
    requires e.Crash? || e.Audit? || e.tenant != u
    ensures TenantInv(crypto, boxes, Next(crypto, w, e), u)
  {
    var w', run := Next(crypto, w, e), w.runs[u];
    OnlyTouchedChange(crypto, boxes, w, e, u);
    OtherRows(crypto, w, e, u);
    ChainPartKept(crypto, boxes, w.chain, w'.chain, u, run);
    MirrorPartKept(crypto, boxes, w.chain, w'.chain, w.tables, w'.tables, u, run);
    CrashKept(crypto, boxes, w'.chain, w'.tables, u, run);
  }

  lemma CrashKept(crypto: Crypto, boxes: iset<Box>, c: Chain, tables: Tables, t: Tenant, run: Run)
    requires ChainPart(crypto, boxes, c, t, run) && MirrorPart(crypto, c, tables, t, run)
    ensures ChainPart(crypto, boxes, c, t, run.(status := Crashed))
    ensures MirrorPart(crypto, c, tables, t, run.(status := Crashed))
  {
    var crashed := run.(status := Crashed);
    assert forall field, value :: SeededSoFar(crashed, field, value) <==> SeededSoFar(run, field, value);
  }

  // ----- The acting tenant -----

  lemma BeginStep(crypto: Crypto, boxes: iset<Box>, w: World, e: Event)
    requires Within(crypto, boxes, w, e) && Inv(crypto, boxes, w) && e.Begin?
    ensures TenantInv(crypto, boxes, Next(crypto, w, e), e.tenant)
  {
    var t, w' := e.tenant, Next(crypto, w, e);
    var run := Run(e.specs, 0, Ready, InFlight);
    assert CountBox(t) in Touched(crypto, w, e);
    assert ContentOf(crypto.sha, w.chain, CountBox(t)) == Absent;
    assert forall i: nat :: (t.org, t.agent, i) !in w.tables.rules;
    forall field: ArcString, value: ArcString | SetBox(t, field, value) in boxes
      ensures !InSet(crypto.sha, w'.chain, t, field, value) && !SeededSoFar(run, field, value)
    {
      assert ContentOf(crypto.sha, w.chain, SetBox(t, field, value)) == Absent;
    }
    assert ChainPart(crypto, boxes, w'.chain, t, run);
    assert MirrorPart(crypto, w'.chain, w'.tables, t, run);
  }

  /** What a `ChainWrite` changes: a new rule box behind the old ones, and the count. */
  lemma ChainWriteEffect(crypto: Crypto, boxes: iset<Box>, w: World, e: Event)
    requires e.ChainWrite? && Within(crypto, boxes, w, e) && TenantInv(crypto, boxes, w, e.tenant)
    ensures
      var t, w' := e.tenant, Next(crypto, w, e);
      var run, row := w.runs[t], NewRow(crypto, w, t, e.nonce);
      && RuleCount(crypto.sha, w'.chain, t) == RuleCount(crypto.sha, w.chain, t) + 1 == run.done + 1
      && RuleAt(crypto.sha, w'.chain, t, run.done) == Some(MirroredRule(row))
      && w'.tables == w.tables && w'.runs[t] == run.(phase := Registered(run.done, row))
      && RuleBox(t, run.done) in boxes
      && SameContent(crypto, boxes, w.chain, w'.chain, t, {CountBox(t), RuleBox(t, run.done)})
  {
    var t := e.tenant;
    var count := RuleCount(crypto.sha, w.chain, t);
    assert Touched(crypto, w, e) == {CountBox(t), RuleBox(t, count)};
    OnlyTouchedChange(crypto, boxes, w, e, t);
  }

  lemma ChainWriteStep(crypto: Crypto, boxes: iset<Box>, w: World, e: Event)
    requires e.ChainWrite? && Within(crypto, boxes, w, e) && TenantInv(crypto, boxes, w, e.tenant)
    ensures TenantInv(crypto, boxes, Next(crypto, w, e), e.tenant)
  {
    var t, w' := e.tenant, Next(crypto, w, e);
    var run, row := w.runs[t], NewRow(crypto, w, t, e.nonce);
    ChainWriteEffect(crypto, boxes, w, e);
    RegisteredChainPart(crypto, boxes, w.chain, w'.chain, t, run, row);
    RegisteredMirrorPart(crypto, boxes, w.chain, w'.chain, w.tables, t, run, row);
  }

  lemma RegisteredChainPart(crypto: Crypto, boxes: iset<Box>, c: Chain, c': Chain, t: Tenant, run: Run, row: RuleRow)
    requires ChainPart(crypto, boxes, c, t, run) && run.phase.Ready? && run.done < |run.specs| && Fits64(run.done + 1)
    requires RuleCount(crypto.sha, c', t) == run.done + 1 && RuleBox(t, run.done) in boxes && run.status.InFlight?
    requires SameContent(crypto, boxes, c, c', t, {CountBox(t), RuleBox(t, run.done)})
    ensures ChainPart(crypto, boxes, c', t, run.(phase := Registered(run.done, row)))
  {
    var run' := run.(phase := Registered(run.done, row));
    forall field: ArcString, value: ArcString | SetBox(t, field, value) in boxes
      ensures InSet(crypto.sha, c', t, field, value) <==> SeededSoFar(run', field, value)
    {
      SetKept(crypto, boxes, c, c', t, {CountBox(t), RuleBox(t, run.done)}, field, value);
      assert SeededSoFar(run', field, value) <==> SeededSoFar(run, field, value);
    }
  }

  lemma RegisteredMirrorPart(crypto: Crypto, boxes: iset<Box>, c: Chain, c': Chain, tables: Tables,
                             t: Tenant, run: Run, row: RuleRow)
    requires ChainPart(crypto, boxes, c, t, run) && MirrorPart(crypto, c, tables, t, run)
    requires run.phase.Ready? && run.done < |run.specs| && Fits64(run.done + 1) && run.status.InFlight?
    requires SameContent(crypto, boxes, c, c', t, {CountBox(t), RuleBox(t, run.done)})
    requires RowAgrees(crypto, c', tables.orgs[t.org].encKey, t, run.done, row, run.specs[run.done])
    ensures MirrorPart(crypto, c', tables, t, run.(phase := Registered(run.done, row)))
  {
    RowsKept(crypto, boxes, c, c', tables, tables, t, run, {CountBox(t), RuleBox(t, run.done)});
  }

  lemma StoreWriteStep(crypto: Crypto, boxes: iset<Box>, w: World, e: Event)
    requires e.StoreWrite? && Within(crypto, boxes, w, e) && TenantInv(crypto, boxes, w, e.tenant)
    ensures TenantInv(crypto, boxes, Next(crypto, w, e), e.tenant)
  {
    var t, w' := e.tenant, Next(crypto, w, e);
    var run := w.runs[t];
    assert w'.runs[t] == run.(phase := Seeding(0)) && w'.chain == w.chain;
    StoredChainPart(crypto, boxes, w.chain, t, run);
    StoredMirrorPart(crypto, w.chain, w.tables, w'.tables, t, run);
  }

  lemma StoredChainPart(crypto: Crypto, boxes: iset<Box>, c: Chain, t: Tenant, run: Run)
    requires ChainPart(crypto, boxes, c, t, run) && run.phase.Registered? && run.status.InFlight?
    ensures ChainPart(crypto, boxes, c, t, run.(phase := Seeding(0)))
  {
    var run' := run.(phase := Seeding(0));
    assert forall field, value :: SeededSoFar(run', field, value) <==> SeededSoFar(run, field, value);
  }

  lemma StoredMirrorPart(crypto: Crypto, c: Chain, tables: Tables, tables': Tables, t: Tenant, run: Run)
    requires RunProgress(run) && run.phase.Registered? && run.status.InFlight? && MirrorPart(crypto, c, tables, t, run)
    requires tables' == tables.(rules := tables.rules[(t.org, t.agent, run.done) := run.phase.row])
    ensures MirrorPart(crypto, c, tables', t, run.(phase := Seeding(0)))
  {
    forall i | 0 <= i < run.done + 1
      ensures MirrorAgrees(crypto, c, tables', t, i, run.specs[i])
    {
      assert i < run.done ==> MirrorAgrees(crypto, c, tables, t, i, run.specs[i]);
    }
    assert HasPrefix(tables', t.org, t.agent, run.done + 1);
  }

  /** The one box that a `Seed` writes adds one value to the set of its field. */
  lemma SeedChainPart(crypto: Crypto, boxes: iset<Box>, w: World, e: Event)
    requires e.Seed? && Within(crypto, boxes, w, e) && TenantInv(crypto, boxes, w, e.tenant)
    ensures ChainPart(crypto, boxes, Next(crypto, w, e).chain, e.tenant, Next(crypto, w, e).runs[e.tenant])
  {
    var t, w', touched := e.tenant, Next(crypto, w, e), Touched(crypto, w, e);
    var run, run' := w.runs[t], w'.runs[t];
    var spec, j := run.specs[run.done], run.phase.seeded;
    var values := SeedValues(spec);
    assert touched == {SetBox(t, spec.field, values[j])} && run' == run.(phase := Seeding(j + 1));
    OnlyTouchedChange(crypto, boxes, w, e, t);
    CountKept(crypto, boxes, w.chain, w'.chain, t, touched);
    forall field: ArcString, value: ArcString | SetBox(t, field, value) in boxes
      ensures InSet(crypto.sha, w'.chain, t, field, value) <==> SeededSoFar(run', field, value)
    {
      OneMoreSeeded(run, field, value);
      if SetBox(t, field, value) !in touched {
        SetKept(crypto, boxes, w.chain, w'.chain, t, touched, field, value);
      }
    }
  }

  lemma OneMoreSeeded(run: Run, field: Text, value: Text)
    requires RunProgress(run) && run.phase.Seeding? && run.phase.seeded < |SeedValues(run.specs[run.done])|
    ensures
      var spec, j := run.specs[run.done], run.phase.seeded;
      SeededSoFar(run.(phase := Seeding(j + 1)), field, value) <==>
        SeededSoFar(run, field, value) || (spec.field == field && SeedValues(spec)[j] == value)
  {
    var values, j := SeedValues(run.specs[run.done]), run.phase.seeded;
    assert values[..j + 1] == values[..j] + [values[j]];
  }

  lemma SeedStep(crypto: Crypto, boxes: iset<Box>, w: World, e: Event)
    requires e.Seed? && Within(crypto, boxes, w, e) && TenantInv(crypto, boxes, w, e.tenant)
    ensures TenantInv(crypto, boxes, Next(crypto, w, e), e.tenant)
  {
    var t, w', touched := e.tenant, Next(crypto, w, e), Touched(crypto, w, e);
    var run := w.runs[t];
    assert w'.runs[t] == run.(phase := Seeding(run.phase.seeded + 1));
    SeedChainPart(crypto, boxes, w, e);
    OnlyTouchedChange(crypto, boxes, w, e, t);
    assert MirrorPart(crypto, w'.chain, w'.tables, t, w'.runs[t]) by {
      RowsKept(crypto, boxes, w.chain, w'.chain, w.tables, w'.tables, t, run, touched);
    }
  }

  lemma AdvanceStep(crypto: Crypto, boxes: iset<Box>, w: World, e: Event)
    requires e.Advance? && Within(crypto, boxes, w, e) && TenantInv(crypto, boxes, w, e.tenant)
    ensures TenantInv(crypto, boxes, Next(crypto, w, e), e.tenant)
  {
    var t, w' := e.tenant, Next(crypto, w, e);
    var run, run' := w.runs[t], w'.runs[t];
    var values := SeedValues(run.specs[run.done]);
    assert w'.chain == w.chain && w'.tables == w.tables && run' == run.(done := run.done + 1, phase := Ready);
    assert values[..|values|] == values;
    forall field, value
      ensures SeededSoFar(run', field, value) <==> SeededSoFar(run, field, value)
    {
    }
  }

  lemma FinishStep(crypto: Crypto, boxes: iset<Box>, w: World, e: Event)
    requires e.Finish? && Within(crypto, boxes, w, e) && TenantInv(crypto, boxes, w, e.tenant)
    ensures TenantInv(crypto, boxes, Next(crypto, w, e), e.tenant)
  {
    var run, run' := w.runs[e.tenant], Next(crypto, w, e).runs[e.tenant];
    assert run' == run.(status := Completed);
    assert forall field, value :: SeededSoFar(run', field, value) <==> SeededSoFar(run, field, value);
  }

  // ----- The tables and the unissued agents -----

  lemma TablesStep(crypto: Crypto, w: World, e: Event)
    requires Enabled(crypto, w, e) && TablesInv(w)
    requires e.StoreWrite? ==> (e.tenant.org, e.tenant.agent) in w.tables.agents
    ensures TablesInv(Next(crypto, w, e))
  {
    var w' := Next(crypto, w, e);
    forall k | k in w'.tables.agents
      ensures exists t :: t in w'.runs && (t.org, t.agent) == k
    {
      AgentHasRun(crypto, w, e, k);
    }
    assert forall t :: t in w'.runs ==> t in w.runs || (e.Begin? && t == e.tenant);
    assert forall t :: t in w'.runs ==> t.org in w'.tables.orgs;
  }

  lemma AgentHasRun(crypto: Crypto, w: World, e: Event, k: (Text, Text))
    requires Enabled(crypto, w, e) && TablesInv(w) && k in NextTables(w.tables, w.runs, e).agents
    ensures exists t :: t in NextRuns(crypto, w, e) && (t.org, t.agent) == k
  {
    if k in w.tables.agents {
      var t :| t in w.runs && (t.org, t.agent) == k;
      assert t in NextRuns(crypto, w, e);
    } else {
      assert e.tenant in NextRuns(crypto, w, e);
    }
  }

  lemma FreshStep(crypto: Crypto, boxes: iset<Box>, w: World, e: Event)
    requires Within(crypto, boxes, w, e) && Inv(crypto, boxes, w)
    ensures FreshInv(crypto, boxes, Next(crypto, w, e))
  {
    var w' := Next(crypto, w, e);
    forall box | box in boxes && !box.AnchorBox? && box.tenant.agent !in w'.issued
      ensures ContentOf(crypto.sha, w'.chain, box) == Absent
    {
      assert box !in Touched(crypto, w, e) by {
        if box in Touched(crypto, w, e) {
          TouchedIsOwn(crypto, w, e, box);
        }
      }
      ContentKept(crypto, boxes, w, e, box);
    }
  }

  /** Every enabled event keeps the invariant. */
  lemma InvStep(crypto: Crypto, boxes: iset<Box>, w: World, e: Event)
    requires Within(crypto, boxes, w, e) && Inv(crypto, boxes, w)
    ensures Inv(crypto, boxes, Next(crypto, w, e))
  {
    var w' := Next(crypto, w, e);
    TablesStep(crypto, w, e);
    FreshStep(crypto, boxes, w, e);
    forall t | t in w'.runs
      ensures TenantInv(crypto, boxes, w', t)
    {
      if e.Crash? || e.Audit? || e.tenant != t {
        OthersFramed(crypto, boxes, w, e, t);
      } else {
        ActingStep(crypto, boxes, w, e);
      }
    }
  }

  lemma ActingStep(crypto: Crypto, boxes: iset<Box>, w: World, e: Event)
    requires Within(crypto, boxes, w, e) && Inv(crypto, boxes, w) && !e.Crash? && !e.Audit?
    requires e.tenant in Next(crypto, w, e).runs
    ensures TenantInv(crypto, boxes, Next(crypto, w, e), e.tenant)
  {
    match e
    case Begin(_, _, _, _) => BeginStep(crypto, boxes, w, e);
    case ChainWrite(_, _) => ChainWriteStep(crypto, boxes, w, e);
    case StoreWrite(_) => StoreWriteStep(crypto, boxes, w, e);
    case Seed(_) => SeedStep(crypto, boxes, w, e);
    case Advance(_) => AdvanceStep(crypto, boxes, w, e);
    case Finish(_) => FinishStep(crypto, boxes, w, e);
    case Fail(_) =>
  }
}
