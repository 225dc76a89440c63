/**
 The policies as an organisation wrote them, against the policies that are enforced: on-chain sets
 belong to a field and not to a rule, so public set rules on one field share their values.
 */
module DeclaredPolicies {
  import opened PolicyContracts
  import opened Provisioning
  import opened Onboarding
  import opened PolicyVerdict

  /** The policy as it was written: a set policy tests membership in its own list. */
  predicate HoldsAlone(spec: PolicySpec, fields: Fields)
    requires Answers(fields, spec)
  {
    var value := fields[spec.field];
    if IsSetOperator(spec.operator) then (value.asText in spec.setValues) == (spec.operator == OP_IN)
    else Compare(spec.operator, value.asInt.value, spec.valueNum)
  }

  /** What a policy says, by the operator codes of an onboarding request. */
  lemma HoldsAloneMeans(spec: PolicySpec, fields: Fields)
    requires Answers(fields, spec) && 1 <= spec.operator <= 8
    ensures spec.operator <= 6 ==>
      && fields[spec.field].asInt.Some?
      && var n, holds := fields[spec.field].asInt.value, HoldsAlone(spec, fields);
         && (spec.operator == 1 ==> (holds <==> n < spec.valueNum))
         && (spec.operator == 2 ==> (holds <==> n <= spec.valueNum))
         && (spec.operator == 3 ==> (holds <==> n > spec.valueNum))
         && (spec.operator == 4 ==> (holds <==> n >= spec.valueNum))
         && (spec.operator == 5 ==> (holds <==> n == spec.valueNum))
         && (spec.operator == 6 ==> (holds <==> n != spec.valueNum))
    ensures spec.operator == 7 ==> (HoldsAlone(spec, fields) <==> fields[spec.field].asText in spec.setValues)
    ensures spec.operator == 8 ==> (HoldsAlone(spec, fields) <==> fields[spec.field].asText !in spec.setValues)
  {
  }

  predicate AllAnswered(specs: seq<PolicySpec>, fields: Fields) {
    forall i :: 0 <= i < |specs| ==> Answers(fields, specs[i])
  }

  predicate AllHoldAlone(specs: seq<PolicySpec>, fields: Fields)
    requires AllAnswered(specs, fields)
  {
    forall i :: 0 <= i < |specs| ==> HoldsAlone(specs[i], fields)
  }

  /** Public set policy `i` does not list the value, but another one on the same field does. */
  predicate Borrows(specs: seq<PolicySpec>, i: nat, fields: Fields)
    requires i < |specs| && AllAnswered(specs, fields)
  {
    var text := fields[specs[i].field].asText;
    && SeedsSet(specs[i]) && text !in specs[i].setValues
    && exists j :: 0 <= j < |specs| && SeedsSet(specs[j]) && specs[j].field == specs[i].field && text in specs[j].setValues
  }

  /** For one policy: the enforced one differs from the written one exactly when it borrows the value. */
  lemma SharedSetsDecide(specs: seq<PolicySpec>, i: nat, fields: Fields)
    requires i < |specs| && AllAnswered(specs, fields)
    ensures Holds(specs, specs[i], fields) == HoldsAlone(specs[i], fields) <==> !Borrows(specs, i, fields)
    ensures Borrows(specs, i, fields) ==> (Holds(specs, specs[i], fields) <==> specs[i].operator == OP_IN)
  {
    var text := fields[specs[i].field].asText;
    if SeedsSet(specs[i]) && text in specs[i].setValues {
      assert text in SeedValues(specs[i]);
    }
    if j :| 0 <= j < |specs| && SeedsSet(specs[j]) && specs[j].field == specs[i].field && text in specs[j].setValues {
      assert text in SeedValues(specs[j]);
    }
  }

  // ----- The decision -----

  predicate SomeBorrow(specs: seq<PolicySpec>, fields: Fields, operator: int)
    requires AllAnswered(specs, fields)
  {
    exists i :: 0 <= i < |specs| && specs[i].operator == operator && Borrows(specs, i, fields)
  }

  /** Every policy that does not borrow holds as written. */
  predicate OthersHold(specs: seq<PolicySpec>, fields: Fields)
    requires AllAnswered(specs, fields)
  {
    forall i :: 0 <= i < |specs| && !Borrows(specs, i, fields) ==> HoldsAlone(specs[i], fields)
  }

  /**
   For the whole decision: a blacklist that borrows refuses what the policies as written allow, a
   whitelist that borrows allows what they refuse, and when both borrow the decision is refused
   either way.  So the enforced and the written decision differ exactly when the other policies hold
   and one kind borrows without the other.
   */
  lemma DecisionDiffers(specs: seq<PolicySpec>, fields: Fields)
    requires AllAnswered(specs, fields)
    ensures AllHold(specs, fields) <==> OthersHold(specs, fields) && !SomeBorrow(specs, fields, OP_NOT_IN)
    ensures AllHoldAlone(specs, fields) <==> OthersHold(specs, fields) && !SomeBorrow(specs, fields, OP_IN)
    ensures (AllHold(specs, fields) <==> AllHoldAlone(specs, fields)) <==>
      !(OthersHold(specs, fields) && SomeBorrow(specs, fields, OP_IN) != SomeBorrow(specs, fields, OP_NOT_IN))
  {
    forall i | 0 <= i < |specs|
      ensures Holds(specs, specs[i], fields) <==>
        if Borrows(specs, i, fields) then specs[i].operator == OP_IN else HoldsAlone(specs[i], fields)
      ensures Borrows(specs, i, fields) ==>
        (HoldsAlone(specs[i], fields) <==> specs[i].operator == OP_NOT_IN) && IsSetOperator(specs[i].operator)
    {
      SharedSetsDecide(specs, i, fields);
    }
  }

  /** No two public set policies are on one field. */
  predicate OneSetPerField(specs: seq<PolicySpec>) {
    forall i, j :: 0 <= i < j < |specs| && SeedsSet(specs[i]) && SeedsSet(specs[j]) ==> specs[i].field != specs[j].field
  }

  /** Then the policies are enforced as they were written, on every decision. */
  lemma EnforcedAsWritten(specs: seq<PolicySpec>, fields: Fields)
    requires AllAnswered(specs, fields) && OneSetPerField(specs)
    ensures AllHold(specs, fields) <==> AllHoldAlone(specs, fields)
  {
    DecisionDiffers(specs, fields);
    forall i | 0 <= i < |specs|
      ensures !Borrows(specs, i, fields)
    {
    }
  }
}
