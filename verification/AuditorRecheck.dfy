/**
 The auditor's recheck of private rules at any time after an audit: when it returns at all, and that
 it then agrees with what was attested.
 */
module AuditorRecheck {
  import opened Basics
  import opened BoxKeys
  import opened PolicyContracts
  import opened TenantStores
  import opened ContractClient
  import opened Provisioning
  import opened Onboarding
  import opened OnboardingTheorems
  import opened OnboardingStability

  /** The recheck of the rule does not raise: it is not private, its field is missing, or its document can be evaluated. */
  predicate Decidable(crypto: Crypto, key: Bytes, row: RuleRow, fields: Fields) {
    IsPrivate(row) && row.field in fields ==>
      match crypto.decrypt(key, row.docCipher)
      case None => true
      case Some(doc) => EvalDoc(doc, fields[row.field]).Some?
  }

  /** The recheck returns exactly if no rule makes it raise. */
  lemma {:induction false} ReportsSucceed(crypto: Crypto, key: Bytes, rows: seq<(nat, RuleRow)>, fields: Fields, n: nat)
    requires n <= |rows|
    ensures Reports(crypto, key, rows, fields, n).Success? <==>
      forall m :: 0 <= m < n ==> Decidable(crypto, key, rows[m].1, fields)
  {
    if n > 0 {
      ReportsSucceed(crypto, key, rows, fields, n - 1);
    }
  }

  /** A rule that was evaluated for an audit can be evaluated again. */
  lemma AuditedIsDecidable(crypto: Crypto, key: Bytes, rows: seq<(nat, RuleRow)>, fields: Fields, a: CheckArgs, k: nat)
    requires ArgsFor(crypto, key, rows, fields, a) && k < |rows|
    ensures Decidable(crypto, key, rows[k].1, fields)
  {
    assert SlotFor(crypto, key, rows[k].1, fields) == Success(Slot(a.valuesNum[k], a.valuesStr[k], a.attested[k]));
  }

  /** An audit in state `i` of an execution, with the rules then stored, and the rules stored in a later state `j`. */
  ghost predicate AuditedBefore(crypto: Crypto, boxes: iset<Box>, worlds: seq<World>, events: seq<Event>, t: Tenant,
                                i: nat, j: nat, fields: Fields, rows: seq<(nat, RuleRow)>, a: CheckArgs,
                                later: seq<(nat, RuleRow)>) {
    && IsExecution(crypto, boxes, worlds, events) && CollisionFree(crypto, boxes)
    && i <= j < |worlds| && t in worlds[i].runs && t in worlds[j].runs && t.org in worlds[i].tables.orgs
    && IsListing(rows, worlds[i].tables, t.org, t.agent) && IsListing(later, worlds[j].tables, t.org, t.agent)
    && ArgsFor(crypto, worlds[i].tables.orgs[t.org].encKey, rows, fields, a)
  }

  /**
   The auditor, with the organisation's key, gets a report exactly if no rule that was added since the
   audit raises; in particular always if none was added.
   */
  lemma RecheckReturns(crypto: Crypto, boxes: iset<Box>, worlds: seq<World>, events: seq<Event>, t: Tenant,
                       i: nat, j: nat, fields: Fields, rows: seq<(nat, RuleRow)>, a: CheckArgs, later: seq<(nat, RuleRow)>)
    requires AuditedBefore(crypto, boxes, worlds, events, t, i, j, fields, rows, a, later)
    ensures rows <= later
    ensures
      var key := worlds[i].tables.orgs[t.org].encKey;
      Reports(crypto, key, later, fields, |later|).Success? <==>
        forall m :: |rows| <= m < |later| ==> Decidable(crypto, key, later[m].1, fields)
  {
    var key := worlds[i].tables.orgs[t.org].encKey;
    ListingGrows(crypto, boxes, worlds, events, t, i, j, rows, later);
    ReportsSucceed(crypto, key, later, fields, |later|);
    forall m | 0 <= m < |rows|
      ensures Decidable(crypto, key, later[m].1, fields)
    {
      AuditedIsDecidable(crypto, key, rows, fields, a, m);
    }
  }

  /**
   Private-rule agreement over time: if no rule added since the audit raises, the report has, for
   every private rule that was audited and whose field is present, a matching commitment and exactly
   the bit that was attested at the rule's index.
   */
  lemma AuditorAgrees(crypto: Crypto, boxes: iset<Box>, worlds: seq<World>, events: seq<Event>, t: Tenant,
                      i: nat, j: nat, fields: Fields, rows: seq<(nat, RuleRow)>, a: CheckArgs,
                      later: seq<(nat, RuleRow)>, k: nat)
    requires AuditedBefore(crypto, boxes, worlds, events, t, i, j, fields, rows, a, later) && Authentic(crypto)
    requires k < |rows| && rows[k].1.mode == MODE_ATTESTED && rows[k].1.field in fields
    requires forall m :: |rows| <= m < |later| ==>
      Decidable(crypto, worlds[i].tables.orgs[t.org].encKey, later[m].1, fields)
    ensures
      var reports := Reports(crypto, worlds[i].tables.orgs[t.org].encKey, later, fields, |later|);
      reports.Success? && Recheck(k, rows[k].1.field, true, Some(a.attested[k])) in reports.value
  {
    var key := worlds[i].tables.orgs[t.org].encKey;
    RecheckReturns(crypto, boxes, worlds, events, t, i, j, fields, rows, a, later);
    var nonce, doc := PrivateRowAt(crypto, boxes, worlds, events, t, i, k, rows);
    PrivateAgreement(crypto, key, nonce, doc, k, rows[k].1, rows, fields, a);
    assert later[k] == rows[k];
    ReportsAreComplete(crypto, key, later, fields, |later|, Recheck(k, rows[k].1.field, true, Some(a.attested[k])));
  }

  lemma PrivateRowAt(crypto: Crypto, boxes: iset<Box>, worlds: seq<World>, events: seq<Event>, t: Tenant,
                     i: nat, k: nat, rows: seq<(nat, RuleRow)>) returns (nonce: Bytes, doc: PolicyDoc)
    requires IsExecution(crypto, boxes, worlds, events) && CollisionFree(crypto, boxes) && i < |worlds|
    requires t in worlds[i].runs && t.org in worlds[i].tables.orgs && k < |rows|
    requires IsListing(rows, worlds[i].tables, t.org, t.agent) && rows[k].1.mode == MODE_ATTESTED
    ensures rows[k].0 == k && (t.org, t.agent, k) in worlds[i].tables.rules
    ensures worlds[i].tables.rules[(t.org, t.agent, k)] == rows[k].1
    ensures rows[k].1 == PrivateRow(crypto, worlds[i].tables.orgs[t.org].encKey, nonce, doc)
  {
    var w := worlds[i];
    var run := w.runs[t];
    InvReachable(crypto, boxes, worlds, events, i);
    assert TenantInv(crypto, boxes, w, t);
    ListingOfPrefix(rows, w.tables, t.org, t.agent, InStore(run));
    assert MirrorAgrees(crypto, w.chain, w.tables, t, k, run.specs[k]);
    nonce :| rows[k].1 == RowOf(crypto, w.tables.orgs[t.org].encKey, nonce, run.specs[k]);
    doc := DocOf(run.specs[k]);
  }
}
