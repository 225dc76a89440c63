/**
 The tenant store of tenancy/store.py: the tables of organisations, agents and policy rules.
 */
module TenantStores {
  import opened Basics

  datatype OrgRow = OrgRow(apiKeyHash: Text, encKey: Bytes, keyVersion: nat, billingMode: Text)

  datatype RuleRow = RuleRow(
    mode: int, operator: int, valueNum: int, field: Text, commitment: Text, docCipher: Bytes)

  datatype Tables = Tables(
    orgs: map<Text, OrgRow>, agents: map<(Text, Text), Text>, rules: map<(Text, Text, nat), RuleRow>)

  datatype StoreError = IntegrityError

  /** The tables without an organisation, its agents and its rules. */
  function WithoutOrg(t: Tables, org: Text): Tables {
    Tables(t.orgs - {org},
           map k | k in t.agents && k.0 != org :: t.agents[k],
           map k | k in t.rules && k.0 != org :: t.rules[k])
  }

  /** `rows` lists the rules of an agent by ascending index. */
  ghost predicate IsListing(rows: seq<(nat, RuleRow)>, t: Tables, org: Text, agent: Text) {
    && (forall j, k :: 0 <= j < k < |rows| ==> rows[j].0 < rows[k].0)
    && (forall k :: 0 <= k < |rows| ==> (org, agent, rows[k].0) in t.rules && t.rules[(org, agent, rows[k].0)] == rows[k].1)
    && (forall i: nat :: (org, agent, i) in t.rules ==> exists k :: 0 <= k < |rows| && rows[k].0 == i)
  }

  /** The stored rules of an agent are those with index below `n`. */
  ghost predicate HasPrefix(t: Tables, org: Text, agent: Text, n: nat) {
    forall i: nat :: (org, agent, i) in t.rules <==> i < n
  }

  lemma {:induction false} ListingPosition(rows: seq<(nat, RuleRow)>, t: Tables, org: Text, agent: Text, n: nat, k: nat)
    requires IsListing(rows, t, org, agent) && HasPrefix(t, org, agent, n) && k < |rows|
    ensures rows[k].0 == k
    decreases k
  {
    if k > 0 {
      ListingPosition(rows, t, org, agent, n, k - 1);
    }
    assert (org, agent, rows[k].0) in t.rules;
    if rows[k].0 > k {
      assert (org, agent, k) in t.rules;
      var j :| 0 <= j < |rows| && rows[j].0 == k;
      assert false;
    }
  }

  /** Without gaps, the position in the listing is the stored index. */
  lemma ListingOfPrefix(rows: seq<(nat, RuleRow)>, t: Tables, org: Text, agent: Text, n: nat)
    requires IsListing(rows, t, org, agent) && HasPrefix(t, org, agent, n)
    ensures |rows| == n
    ensures forall k :: 0 <= k < n ==> rows[k].0 == k && rows[k].1 == t.rules[(org, agent, k)]
  {
    forall k | 0 <= k < |rows|
      ensures k < n && rows[k].0 == k && rows[k].1 == t.rules[(org, agent, k)]
    {
      ListingPosition(rows, t, org, agent, n, k);
      assert (org, agent, rows[k].0) in t.rules;
    }
    if rows != [] {
      assert rows[|rows| - 1].0 == |rows| - 1;
    }
    if n > 0 {
      assert (org, agent, n - 1) in t.rules;
      var k :| 0 <= k < |rows| && rows[k].0 == n - 1;
    }
  }

  class TenantStore {
    var orgs: map<Text, OrgRow>
    var agents: map<(Text, Text), Text>
    var rules: map<(Text, Text, nat), RuleRow>

    constructor ()
      ensures State() == Tables(map[], map[], map[])
    {
      orgs, agents, rules := map[], map[], map[];
    }

    function State(): Tables
      reads this
    {
      Tables(orgs, agents, rules)
    }

    method CreateOrg(org: Text, row: OrgRow) returns (r: Result<(), StoreError>)
      modifies this
      ensures r.Success? <==> org !in old(orgs) && forall o :: o in old(orgs) ==> old(orgs)[o].apiKeyHash != row.apiKeyHash
      ensures State() == if r.Success? then old(State()).(orgs := old(orgs)[org := row]) else old(State())
    {
      if org in orgs || exists o :: o in orgs && orgs[o].apiKeyHash == row.apiKeyHash {
        return Failure(IntegrityError);
      }
      orgs := orgs[org := row];
      r := Success(());
    }

    method AddAgent(org: Text, agent: Text, displayName: Text)
      modifies this
      ensures State() == old(State()).(agents :=
        if (org, agent) in old(agents) then old(agents) else old(agents)[(org, agent) := displayName])
    {
      if (org, agent) !in agents {
        agents := agents[(org, agent) := displayName];
      }
    }

    method AddRule(org: Text, agent: Text, idx: nat, row: RuleRow)
      modifies this
      ensures State() == old(State()).(rules := old(rules)[(org, agent, idx) := row])
    {
      rules := rules[(org, agent, idx) := row];
    }

    method DeleteOrg(org: Text)
      modifies this
      ensures State() == WithoutOrg(old(State()), org)
    {
      rules := map k | k in rules && k.0 != org :: rules[k];
      agents := map k | k in agents && k.0 != org :: agents[k];
      orgs := orgs - {org};
    }

    method GetRules(org: Text, agent: Text) returns (rows: seq<(nat, RuleRow)>)
      ensures rows == Listing(State(), org, agent) && IsListing(rows, State(), org, agent)
    {
      rows := [];
      var rest := Indices(State(), org, agent);
      ghost var done: seq<nat> := [];
      while rest != {}
        invariant rest <= Indices(State(), org, agent)
        invariant done + Ascending(rest) == Ascending(Indices(State(), org, agent))
        invariant |rows| == |done|
        invariant forall k :: 0 <= k < |done| ==>
          done[k] in Indices(State(), org, agent) && rows[k] == (done[k], rules[(org, agent, done[k])])
        decreases |rest|
      {
        LeastExists(rest);
        var least :| least in rest && forall i :: i in rest ==> least <= i;
        assert done + ([least] + Ascending(rest - {least})) == done + [least] + Ascending(rest - {least});
        rows, done := rows + [(least, rules[(org, agent, least)])], done + [least];
        rest := rest - {least};
      }
      assert done + [] == done;
      assert rows == Listing(State(), org, agent);
      ListingIsListing(State(), org, agent);
    }
  }

  // ----- The listing of an agent's rules -----

  function Indices(t: Tables, org: Text, agent: Text): set<nat> {
    set k | k in t.rules && k.0 == org && k.1 == agent :: k.2
  }

  ghost function Ascending(s: set<nat>): (r: seq<nat>)
    ensures forall k :: 0 <= k < |r| ==> r[k] in s
    decreases |s|
  {
    if s == {} then []
    else
      LeastExists(s);
      var least :| least in s && forall i :: i in s ==> least <= i;
      [least] + Ascending(s - {least})
  }

  lemma {:induction false} AscendingIsSorted(s: set<nat>)
    ensures forall j, k :: 0 <= j < k < |Ascending(s)| ==> Ascending(s)[j] < Ascending(s)[k]
    ensures forall i :: i in s ==> i in Ascending(s)
    decreases |s|
  {
    if s != {} {
      LeastExists(s);
      var least := Ascending(s)[0];
      AscendingIsSorted(s - {least});
      assert Ascending(s) == [least] + Ascending(s - {least});
    }
  }

  /** The rules of an agent by ascending index. */
  ghost function Listing(t: Tables, org: Text, agent: Text): seq<(nat, RuleRow)> {
    var indices := Ascending(Indices(t, org, agent));
    seq(|indices|, k requires 0 <= k < |indices| => (indices[k], t.rules[(org, agent, indices[k])]))
  }

  lemma ListingIsListing(t: Tables, org: Text, agent: Text)
    ensures IsListing(Listing(t, org, agent), t, org, agent)
  {
    var indices, rows := Ascending(Indices(t, org, agent)), Listing(t, org, agent);
    AscendingIsSorted(Indices(t, org, agent));
    forall i: nat | (org, agent, i) in t.rules
      ensures exists k :: 0 <= k < |rows| && rows[k].0 == i
    {
      assert i in Indices(t, org, agent);
      var k :| 0 <= k < |indices| && indices[k] == i;
      assert rows[k].0 == i;
    }
  }

  lemma LeastExists(s: set<nat>)
    requires s != {}
    ensures exists least :: least in s && forall i :: i in s ==> least <= i
  {
    var least := Least(s);
    assert least in s;
  }

  lemma {:induction false} Least(s: set<nat>) returns (least: nat)
    requires s != {}
    ensures least in s && forall i :: i in s ==> least <= i
    decreases |s|
  {
    var x :| x in s;
    var rest := s - {x};
    if rest == {} {
      assert s == {x};
      least := x;
    } else {
      assert |rest| < |s|;
      var y := Least(rest);
      assert forall i :: i in s ==> i == x || i in rest;
      least := if x < y then x else y;
    }
  }
}
