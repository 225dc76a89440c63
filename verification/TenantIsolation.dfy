/**
 Tenants of the shared policy contract do not influence each other's rules, sets and verdicts,
 except through a hash collision that is exhibited; what they do share is the stock of receipts.
 */
module TenantIsolation {
  import opened Basics
  import opened Arc4
  import opened BoxKeys
  import opened ResultString
  import opened PolicyContracts

  datatype Content = Absent | Count(n: uint64) | Rule(rule: PolicyRule) | Member

  /** What a read of `box` finds. */
  function ContentOf(sha: Hash, c: Chain, box: Box): Content {
    var name := BoxName(sha, box);
    match box
    case CountBox(_) => if name in c.counts then Count(c.counts[name]) else Absent
    case RuleBox(_, _) => if name in c.rules then Rule(c.rules[name]) else Absent
    case SetBox(_, _, _) => if name in c.sets then Member else Absent
    case AnchorBox(_) => Absent
  }

  /** The boxes an effect writes. */
  function Written(sha: Hash, c: Chain, e: Effect): set<Box> {
    match e
    case Register(t, _) => {CountBox(t), RuleBox(t, RuleCount(sha, c, t))}
    case AddValue(t, field, value) => {SetBox(t, field, value)}
    case RemoveValue(t, field, value) => {SetBox(t, field, value)}
    case Receipt(_) => {}
  }

  /** Only boxes that bear the name of a written box change. */
  lemma WritesAreLocal(sha: Hash, c: Chain, e: Effect, box: Box)
    requires forall w :: w in Written(sha, c, e) ==> !(SameKind(w, box) && BoxName(sha, w) == BoxName(sha, box))
    ensures ContentOf(sha, Apply(sha, c, e), box) == ContentOf(sha, c, box)
  {
    match e
    case Register(t, _) =>
      assert CountBox(t) in Written(sha, c, e) && RuleBox(t, RuleCount(sha, c, t)) in Written(sha, c, e);
    case AddValue(t, field, value) => assert SetBox(t, field, value) in Written(sha, c, e);
    case RemoveValue(t, field, value) => assert SetBox(t, field, value) in Written(sha, c, e);
    case Receipt(_) =>
  }

  /** A value that was added is a member, and one that was removed is none; every other member stays what it was, or its box collides. */
  lemma MembershipChanges(sha: Hash, c: Chain, t: Tenant, field: ArcString, value: ArcString,
                          u: Tenant, otherField: ArcString, other: ArcString)
    ensures InSet(sha, Apply(sha, c, AddValue(t, field, value)), t, field, value)
    ensures !InSet(sha, Apply(sha, c, RemoveValue(t, field, value)), t, field, value)
    ensures
      var written, read := SetBox(t, field, value), SetBox(u, otherField, other);
      written != read ==>
      || Collide(sha, Preimage(written), Preimage(read))
      || (&& InSet(sha, Apply(sha, c, AddValue(t, field, value)), u, otherField, other) == InSet(sha, c, u, otherField, other)
          && InSet(sha, Apply(sha, c, RemoveValue(t, field, value)), u, otherField, other) == InSet(sha, c, u, otherField, other))
  {
    var written, read := SetBox(t, field, value), SetBox(u, otherField, other);
    if written != read {
      NamesDistinct(sha, written, read);
    }
  }

  function ApplyAll(sha: Hash, c: Chain, run: seq<Effect>): Chain {
    if run == [] then c else Apply(sha, ApplyAll(sha, c, run[..|run| - 1]), run[|run| - 1])
  }

  /** No effect in the run is one of tenant `t`. */
  predicate Foreign(run: seq<Effect>, t: Tenant) {
    forall i :: 0 <= i < |run| ==> run[i].tenant != t
  }

  /** Any run of other tenants leaves a tenant's box as it was, or `clash` is another tenant's box whose preimage collides. */
  lemma {:induction false} Isolation(sha: Hash, c: Chain, run: seq<Effect>, box: Box) returns (clash: Box)
    requires !box.AnchorBox? && Foreign(run, box.tenant)
    ensures ContentOf(sha, ApplyAll(sha, c, run), box) == ContentOf(sha, c, box)
      || (!clash.AnchorBox? && clash.tenant != box.tenant && Collide(sha, Preimage(box), Preimage(clash)))
  {
    clash := box;
    if run != [] {
      var n := |run| - 1;
      var before, e := ApplyAll(sha, c, run[..n]), run[n];
      if w :| w in Written(sha, before, e) && SameKind(w, box) && BoxName(sha, w) == BoxName(sha, box) {
        clash := w;
        NamesDistinct(sha, box, w);
      } else {
        WritesAreLocal(sha, before, e, box);
        clash := Isolation(sha, c, run[..n], box);
      }
    }
  }

  /** The outcome of a check depends only on the boxes of its tenant. */
  lemma OutcomeDependsOnOwnBoxes(sha: Hash, c: Chain, d: Chain, call: Call, t: Tenant, args: CheckArrays)
    requires forall box: Box :: !box.AnchorBox? && box.tenant == t ==> ContentOf(sha, c, box) == ContentOf(sha, d, box)
    ensures Outcome(sha, c, call, t, args) == Outcome(sha, d, call, t, args)
  {
    assert ContentOf(sha, c, CountBox(t)) == ContentOf(sha, d, CountBox(t));
    assert RuleCount(sha, c, t) == RuleCount(sha, d, t);
    if Aligned(args, |args.nums|) {
      forall i | 0 <= i < |args.nums|
        ensures VerdictAt(sha, c, call, t, args, i) == VerdictAt(sha, d, call, t, args, i)
      {
        VerdictDependsOnOwnBoxes(sha, c, d, call, t, args, i);
      }
      var e, f := Evaluate(sha, c, call, t, args), Evaluate(sha, d, call, t, args);
      assert e.Some? <==> f.Some?;
      assert e.Some? ==> e.value == f.value;
    }
  }

  lemma VerdictDependsOnOwnBoxes(sha: Hash, c: Chain, d: Chain, call: Call, t: Tenant, args: CheckArrays, i: nat)
    requires forall box: Box :: !box.AnchorBox? && box.tenant == t ==> ContentOf(sha, c, box) == ContentOf(sha, d, box)
    requires Aligned(args, |args.nums|) && i < |args.nums|
    ensures VerdictAt(sha, c, call, t, args, i) == VerdictAt(sha, d, call, t, args, i)
  {
    if Fits64(i) {
      assert ContentOf(sha, c, RuleBox(t, i)) == ContentOf(sha, d, RuleBox(t, i));
      var rule := RuleAt(sha, c, t, i);
      if rule.Some? {
        var box := SetBox(t, rule.value.field, args.strs[i]);
        assert ContentOf(sha, c, box) == ContentOf(sha, d, box);
      }
    }
  }

  // ----- What tenants share: the receipts -----

  /** The number of receipts that a run sends. */
  function Sent(run: seq<Effect>): nat {
    if run == [] then 0 else Sent(run[..|run| - 1]) + if run[|run| - 1].Receipt? then 1 else 0
  }

  lemma {:induction false} ReceiptsAfter(sha: Hash, c: Chain, run: seq<Effect>)
    ensures ApplyAll(sha, c, run).receipts == if Sent(run) >= c.receipts then 0 else c.receipts - Sent(run)
  {
    if run != [] {
      ReceiptsAfter(sha, c, run[..|run| - 1]);
    }
  }

  /** A check that would be confirmed and passes, but the run sends at least the receipts that are left. */
  predicate Starved(sha: Hash, c: Chain, run: seq<Effect>, call: Call, t: Tenant, args: CheckArrays) {
    Accepts(sha, c, call, t, args) && AllPassed(Outcome(sha, c, call, t, args).value) && Sent(run) >= c.receipts
  }

  /**
   Non-interference, and its limit: whatever the other tenants do, a check of `t` has the same
   verdicts.  It is confirmed afterwards exactly when it would have been confirmed before, unless it
   passes and the others have sent all receipts that were left, which all tenants share; then it is
   refused.  Otherwise `own` and `clash` are boxes of different tenants whose preimages collide.
   */
  lemma NonInterference(sha: Hash, c: Chain, run: seq<Effect>, call: Call, t: Tenant, args: CheckArrays)
    returns (own: Box, clash: Box)
    requires Foreign(run, t)
    ensures
      || (!own.AnchorBox? && !clash.AnchorBox? && own.tenant == t != clash.tenant
          && Collide(sha, Preimage(own), Preimage(clash)))
      || (var d := ApplyAll(sha, c, run);
          && Outcome(sha, d, call, t, args) == Outcome(sha, c, call, t, args)
          && (Accepts(sha, d, call, t, args) ==> Accepts(sha, c, call, t, args))
          && ((Accepts(sha, d, call, t, args) <==> Accepts(sha, c, call, t, args))
              <==> !Starved(sha, c, run, call, t, args)))
  {
    own, clash := CountBox(t), CountBox(t);
    var d := ApplyAll(sha, c, run);
    if box: Box :| !box.AnchorBox? && box.tenant == t && ContentOf(sha, c, box) != ContentOf(sha, d, box) {
      own := box;
      clash := Isolation(sha, c, run, box);
    } else {
      OutcomeDependsOnOwnBoxes(sha, c, d, call, t, args);
      ReceiptsAfter(sha, c, run);
    }
  }

  /** Another tenant that takes the last receipt makes a passing check fail. */
  lemma ReceiptsAreShared(sha: Hash, c: Chain, call: Call, t: Tenant, u: Tenant, args: CheckArrays)
    requires t != u && c.receipts == 1
    requires Accepts(sha, c, call, t, args) && AllPassed(Outcome(sha, c, call, t, args).value)
    ensures Foreign([Receipt(u)], t) && !Accepts(sha, ApplyAll(sha, c, [Receipt(u)]), call, t, args)
  {
    var run := [Receipt(u)];
    assert run[..0] == [] && ApplyAll(sha, c, []) == c;
    var d := ApplyAll(sha, c, run);
    assert d == Apply(sha, c, Receipt(u)) && d.receipts == 0;
    assert forall box: Box :: ContentOf(sha, c, box) == ContentOf(sha, d, box);
    OutcomeDependsOnOwnBoxes(sha, c, d, call, t, args);
  }
}
