/**
 The conservation of receipts: any interleaving of contract calls, recorded verdicts and anchored
 batches, where calls can be confirmed whose pipelines never get to record anything.
 */
module Receipts {
  import opened Basics
  import opened PolicyContracts
  import opened BatchStores

  // ----- Runs of the contract -----

  function ChainAfter(sha: Hash, c: Chain, calls: seq<ContractCall>): Chain {
    if calls == [] then c else AfterCall(sha, ChainAfter(sha, c, calls[..|calls| - 1]), calls[|calls| - 1])
  }

  /** The number of confirmed calls in which every rule passed. */
  function MintCount(sha: Hash, c: Chain, calls: seq<ContractCall>): nat {
    if calls == [] then 0
    else
      var front := calls[..|calls| - 1];
      MintCount(sha, c, front) + if Mints(sha, ChainAfter(sha, c, front), calls[|calls| - 1]) then 1 else 0
  }

  /** Without a refill, the receipts drop by exactly the number of confirmed checks in which every rule passed. */
  lemma {:induction false} ReceiptsDropByMints(sha: Hash, c: Chain, calls: seq<ContractCall>)
    ensures ChainAfter(sha, c, calls).receipts + MintCount(sha, c, calls) == c.receipts
  {
    if calls != [] {
      var front, k := calls[..|calls| - 1], calls[|calls| - 1];
      ReceiptsDropByMints(sha, c, front);
      OneCall(sha, ChainAfter(sha, c, front), k);
    }
  }

  lemma OneCall(sha: Hash, c: Chain, k: ContractCall)
    ensures AfterCall(sha, c, k).receipts + (if Mints(sha, c, k) then 1 else 0) == c.receipts
  {
  }

  // ----- Runs of the audit service -----

  /**
   The contract, the rows of the batch store, and three sets of transaction ids: of the confirmed
   calls, of those that minted a receipt, and of those whose verdict was recorded.
   */
  datatype Audit = Audit(
    chain: Chain, rows: map<Text, LeafRow>, confirmed: set<Text>, minted: set<Text>, recorded: set<Text>)

  datatype AuditEvent =
    | Submitted(txId: Text, k: ContractCall)
    | Recorded(record: AuditRecord, now: int)
    | Anchored(batch: ReadyBatch)

  /** Transaction ids are fresh, and a pipeline records the verdict of its own transaction, once. */
  predicate CanHappen(sha: Hash, s: Audit, e: AuditEvent) {
    match e
    case Submitted(txId, k) => txId !in s.confirmed && Confirmed(sha, s.chain, k)
    case Recorded(record, _) =>
      && record.policyTxId in s.confirmed && record.policyTxId !in s.recorded
      && (record.approved <==> record.policyTxId in s.minted)
    case Anchored(batch) => |batch.entries| == |batch.leaves|
  }

  function NextAudit(sha: Hash, leafHash: LeafHash, s: Audit, e: AuditEvent): Audit
    requires CanHappen(sha, s, e)
  {
    match e
    case Submitted(txId, k) =>
      s.(chain := AfterCall(sha, s.chain, k), confirmed := s.confirmed + {txId},
         minted := if Mints(sha, s.chain, k) then s.minted + {txId} else s.minted)
    case Recorded(record, now) =>
      s.(rows := s.rows[record.actionId := PendingRow(leafHash, record, now)],
         recorded := s.recorded + {record.policyTxId})
    case Anchored(batch) => s.(rows := Marked(sha, s.rows, batch, |batch.entries|))
  }

  /** The state that the events lead to, if each of them can happen when it does. */
  function AuditAfter(sha: Hash, leafHash: LeafHash, s: Audit, events: seq<AuditEvent>): Option<Audit> {
    if events == [] then Some(s)
    else
      var n := |events| - 1;
      match AuditAfter(sha, leafHash, s, events[..n])
      case None => None
      case Some(before) =>
        if CanHappen(sha, before, events[n]) then Some(NextAudit(sha, leafHash, before, events[n])) else None
  }

  lemma AuditSnoc(sha: Hash, leafHash: LeafHash, s: Audit, events: seq<AuditEvent>, before: Audit, e: AuditEvent)
    requires AuditAfter(sha, leafHash, s, events) == Some(before) && CanHappen(sha, before, e)
    ensures AuditAfter(sha, leafHash, s, events + [e]) == Some(NextAudit(sha, leafHash, before, e))
  {
    assert (events + [e])[..|events|] == events;
  }

  lemma AuditLast(sha: Hash, leafHash: LeafHash, s: Audit, all: seq<AuditEvent>, before: Audit, w: Audit)
    requires all != [] && AuditAfter(sha, leafHash, s, all[..|all| - 1]) == Some(before)
    requires CanHappen(sha, before, all[|all| - 1]) && w == NextAudit(sha, leafHash, before, all[|all| - 1])
    ensures AuditAfter(sha, leafHash, s, all) == Some(w)
  {
  }

  lemma AuditFront(sha: Hash, leafHash: LeafHash, u: Audit, events: seq<AuditEvent>, w: Audit) returns (before: Audit)
    requires events != [] && AuditAfter(sha, leafHash, u, events) == Some(w)
    ensures
      var front, last := events[..|events| - 1], events[|events| - 1];
      && AuditAfter(sha, leafHash, u, front) == Some(before)
      && CanHappen(sha, before, last) && w == NextAudit(sha, leafHash, before, last)
  {
    before := AuditAfter(sha, leafHash, u, events[..|events| - 1]).value;
  }

  lemma JoinedFront(events: seq<AuditEvent>, more: seq<AuditEvent>, all: seq<AuditEvent>)
    requires more != [] && all == events + more
    ensures all[..|all| - 1] == events + more[..|more| - 1] && all[|all| - 1] == more[|more| - 1]
  {
  }

  /** The events of one call can follow any run. */
  lemma {:induction false} AuditJoin(sha: Hash, leafHash: LeafHash, s: Audit, events: seq<AuditEvent>, u: Audit,
                                     more: seq<AuditEvent>, w: Audit, all: seq<AuditEvent>)
    requires AuditAfter(sha, leafHash, s, events) == Some(u) && AuditAfter(sha, leafHash, u, more) == Some(w)
    requires all == events + more
    ensures AuditAfter(sha, leafHash, s, all) == Some(w)
    decreases |more|
  {
    if more == [] {
      assert all == events;
    } else {
      var front := more[..|more| - 1];
      var before := AuditFront(sha, leafHash, u, more, w);
      var joined := events + front;
      AuditJoin(sha, leafHash, s, events, u, front, before, joined);
      JoinedFront(events, more, all);
      AuditLast(sha, leafHash, s, all, before, w);
    }
  }

  /** The contract calls of a run. */
  function Calls(events: seq<AuditEvent>): seq<ContractCall> {
    if events == [] then []
    else
      var e := events[|events| - 1];
      Calls(events[..|events| - 1]) + if e.Submitted? then [e.k] else []
  }

  function Approved(rows: map<Text, LeafRow>): set<Text> {
    set id | id in rows && rows[id].record.approved
  }

  ghost predicate RecordsInv(s: Audit) {
    && s.minted <= s.confirmed
    && (forall id :: id in s.rows ==>
          && s.rows[id].record.policyTxId in s.recorded
          && (s.rows[id].record.approved <==> s.rows[id].record.policyTxId in s.minted))
    && s.recorded <= s.confirmed
    && (forall id, id' :: id in s.rows && id' in s.rows && id != id' ==>
          s.rows[id].record.policyTxId != s.rows[id'].record.policyTxId)
  }

  lemma RecordsStep(sha: Hash, leafHash: LeafHash, s: Audit, e: AuditEvent)
    requires RecordsInv(s) && CanHappen(sha, s, e)
    ensures RecordsInv(NextAudit(sha, leafHash, s, e))
  {
    if e.Anchored? {
      MarkKeepsRecords(sha, s.rows, e.batch);
    }
  }

  /** A mark changes no record. */
  lemma MarkKeepsRecords(sha: Hash, rows: map<Text, LeafRow>, batch: ReadyBatch)
    requires |batch.entries| == |batch.leaves|
    ensures
      var rows' := Marked(sha, rows, batch, |batch.entries|);
      rows'.Keys == rows.Keys && forall id :: id in rows ==> rows'[id].record == rows[id].record
  {
  }

  /** The contract's part of a run, and the receipts it minted. */
  ghost predicate ChainInv(sha: Hash, c: Chain, events: seq<AuditEvent>, s: Audit) {
    s.chain == ChainAfter(sha, c, Calls(events)) && |s.minted| == MintCount(sha, c, Calls(events))
  }

  lemma ChainStep(sha: Hash, leafHash: LeafHash, c: Chain, events: seq<AuditEvent>, s: Audit, e: AuditEvent)
    requires ChainInv(sha, c, events, s) && RecordsInv(s) && CanHappen(sha, s, e)
    ensures ChainInv(sha, c, events + [e], NextAudit(sha, leafHash, s, e))
  {
    CallsSnoc(events, e);
    if e.Submitted? {
      RunSnoc(sha, c, Calls(events), e.k);
    }
  }

  lemma CallsSnoc(events: seq<AuditEvent>, e: AuditEvent)
    ensures Calls(events + [e]) == if e.Submitted? then Calls(events) + [e.k] else Calls(events)
  {
    assert (events + [e])[..|events|] == events;
  }

  lemma RunSnoc(sha: Hash, c: Chain, calls: seq<ContractCall>, k: ContractCall)
    ensures ChainAfter(sha, c, calls + [k]) == AfterCall(sha, ChainAfter(sha, c, calls), k)
    ensures MintCount(sha, c, calls + [k])
         == MintCount(sha, c, calls) + if Mints(sha, ChainAfter(sha, c, calls), k) then 1 else 0
  {
    assert (calls + [k])[..|calls|] == calls;
  }

  lemma {:induction false} AuditInv(sha: Hash, leafHash: LeafHash, c: Chain, events: seq<AuditEvent>, s: Audit)
    requires AuditAfter(sha, leafHash, Audit(c, map[], {}, {}, {}), events) == Some(s)
    ensures RecordsInv(s) && ChainInv(sha, c, events, s)
    decreases |events|
  {
    if events != [] {
      var front, last := events[..|events| - 1], events[|events| - 1];
      var before := AuditFront(sha, leafHash, Audit(c, map[], {}, {}, {}), events, s);
      AuditInv(sha, leafHash, c, front, before);
      RecordsStep(sha, leafHash, before, last);
      ChainStep(sha, leafHash, c, front, before, last);
      assert events == front + [last];
    }
  }

  /** An injective image of a set inside `range` is no larger than `range`. */
  lemma {:induction false} InjectionBounds(ids: set<Text>, rows: map<Text, LeafRow>, range: set<Text>)
    requires forall id :: id in ids ==> id in rows && rows[id].record.policyTxId in range
    requires forall id, id' :: id in ids && id' in ids && id != id' ==>
      rows[id].record.policyTxId != rows[id'].record.policyTxId
    ensures |ids| <= |range|
    decreases |ids|
  {
    if ids != {} {
      var id :| id in ids;
      var rest, tx := ids - {id}, rows[id].record.policyTxId;
      assert |rest| == |ids| - 1 && |range - {tx}| == |range| - 1;
      InjectionBounds(rest, rows, range - {tx});
    }
  }

  /**
   Receipt conservation: over any run the contract's receipts drop by the number of its confirmed
   all-pass checks, which are the minting transactions.  A row of the batch store is approved exactly
   if its transaction is one of them, different rows have different transactions, and so approved
   rows never outnumber the receipts spent, although pipelines fail after minting, records of an
   action replace each other, and batches are anchored in between.
   */
  lemma ApprovedNeverExceedReceipts(sha: Hash, leafHash: LeafHash, c: Chain, events: seq<AuditEvent>, s: Audit)
    requires AuditAfter(sha, leafHash, Audit(c, map[], {}, {}, {}), events) == Some(s)
    ensures s.chain == ChainAfter(sha, c, Calls(events))
    ensures c.receipts - s.chain.receipts == MintCount(sha, c, Calls(events)) == |s.minted|
    ensures forall id :: id in s.rows ==> (s.rows[id].record.approved <==> s.rows[id].record.policyTxId in s.minted)
    ensures forall id, id' :: id in s.rows && id' in s.rows && id != id' ==>
      s.rows[id].record.policyTxId != s.rows[id'].record.policyTxId
    ensures |Approved(s.rows)| <= c.receipts - s.chain.receipts
  {
    AuditInv(sha, leafHash, c, events, s);
    ReceiptsDropByMints(sha, c, Calls(events));
    InjectionBounds(Approved(s.rows), s.rows, s.minted);
  }
}
