/**
 The batch store of batcher/store.py: pending audit records, the batches built from them, and
 the proofs recorded once a batch is anchored.
 */
module BatchStores {
  import opened Basics
  import opened Merkle

  /** An audit record: the fields that the store and the pipeline look at, and the rest. */
  datatype AuditRecord = AuditRecord(
    actionId: Text, policyResult: Text, policyTxId: Text, asaMinted: bool, approved: bool, content: Bytes)

  type LeafHash = AuditRecord -> Digest

  /** A row of the table `leaves`; the last three columns but one are NULL while the leaf is pending. */
  datatype LeafRow = LeafRow(
    leaf: Digest, record: AuditRecord, batchId: Option<Text>, leafIndex: Option<nat>,
    proof: Option<seq<Digest>>, createdAt: int)

  datatype BatchRow = BatchRow(merkleRoot: Digest, leafCount: nat, anchorTxId: Text, submittedAt: int)

  datatype BatchEntry = BatchEntry(actionId: Text, record: AuditRecord, leaf: Digest)

  datatype ReadyBatch = ReadyBatch(
    batchId: Text, entries: seq<BatchEntry>, leaves: seq<Digest>, merkleRoot: Digest, timestamp: int)

  datatype BatchError = MissingActionId | EmptyBatch

  // ----- Adding and flushing -----

  function PendingRow(leafHash: LeafHash, record: AuditRecord, now: int): LeafRow {
    LeafRow(leafHash(record), record, None, None, None, now)
  }

  function Pending(rows: map<Text, LeafRow>): set<Text> {
    set id | id in rows && rows[id].batchId.None?
  }

  function LeavesOf(entries: seq<BatchEntry>): seq<Digest> {
    seq(|entries|, i requires 0 <= i < |entries| => entries[i].leaf)
  }

  predicate DistinctIds(entries: seq<BatchEntry>) {
    forall i, j :: 0 <= i < j < |entries| ==> entries[i].actionId != entries[j].actionId
  }

  function IdsOf(entries: seq<BatchEntry>): set<Text> {
    set i | 0 <= i < |entries| :: entries[i].actionId
  }

  predicate IsEntryOf(rows: map<Text, LeafRow>, e: BatchEntry) {
    e.actionId in rows && rows[e.actionId].record == e.record && rows[e.actionId].leaf == e.leaf
  }

  predicate OldestFirst(rows: map<Text, LeafRow>, entries: seq<BatchEntry>) {
    forall i, j :: 0 <= i < j < |entries| && entries[i].actionId in rows && entries[j].actionId in rows ==>
      rows[entries[i].actionId].createdAt <= rows[entries[j].actionId].createdAt
  }

  /** `batch` holds every pending row once, oldest first, ties in any order, under their Merkle root. */
  ghost predicate IsFlush(sha: Hash, rows: map<Text, LeafRow>, batch: ReadyBatch) {
    && batch.entries != [] && DistinctIds(batch.entries) && IdsOf(batch.entries) == Pending(rows)
    && (forall i :: 0 <= i < |batch.entries| ==> IsEntryOf(rows, batch.entries[i]))
    && OldestFirst(rows, batch.entries)
    && batch.leaves == LeavesOf(batch.entries)
    && batch.merkleRoot == Root(sha, batch.leaves)
  }

  // ----- Marking -----

  /** The last position of `id` among the entries. */
  function EntryIndex(entries: seq<BatchEntry>, id: Text): (r: Option<nat>)
    ensures r.Some? ==> r.value < |entries| && entries[r.value].actionId == id
  {
    if entries == [] then None
    else if entries[|entries| - 1].actionId == id then Some(|entries| - 1)
    else EntryIndex(entries[..|entries| - 1], id)
  }

  lemma {:induction false} EntryIndexIs(entries: seq<BatchEntry>, i: nat)
    requires i < |entries| && DistinctIds(entries)
    ensures EntryIndex(entries, entries[i].actionId) == Some(i)
  {
    if i < |entries| - 1 {
      EntryIndexIs(entries[..|entries| - 1], i);
    }
  }

  lemma {:induction false} EntryIndexFound(entries: seq<BatchEntry>, id: Text)
    ensures EntryIndex(entries, id).Some? <==> id in IdsOf(entries)
  {
    if entries != [] {
      var front, last := entries[..|entries| - 1], entries[|entries| - 1];
      EntryIndexFound(front, id);
      IdsSnoc(front, last);
      assert entries == front + [last];
    }
  }

  function MarkRow(sha: Hash, row: LeafRow, batchId: Text, leaves: seq<Digest>, i: nat): LeafRow
    requires i < |leaves|
  {
    row.(batchId := Some(batchId), leafIndex := Some(i), proof := Some(Proof(sha, leaves, i)))
  }

  /** The rows after the first `n` entries of a batch have been marked. */
  function Marked(sha: Hash, rows: map<Text, LeafRow>, batch: ReadyBatch, n: nat): map<Text, LeafRow>
    requires n <= |batch.entries| == |batch.leaves|
  {
    map id | id in rows ::
      match EntryIndex(batch.entries[..n], id)
      case None => rows[id]
      case Some(i) => MarkRow(sha, rows[id], batch.batchId, batch.leaves, i)
  }

  lemma EntryIndexNext(entries: seq<BatchEntry>, n: nat, id: Text)
    requires n < |entries|
    ensures EntryIndex(entries[..n + 1], id)
         == if entries[n].actionId == id then Some(n) else EntryIndex(entries[..n], id)
  {
    var more := entries[..n + 1];
    assert more[..n] == entries[..n] && more[n] == entries[n];
  }

  /** One turn of the marking loop. */
  lemma MarkedNext(sha: Hash, rows: map<Text, LeafRow>, batch: ReadyBatch, n: nat)
    requires n < |batch.entries| == |batch.leaves|
    ensures
      var id, marked := batch.entries[n].actionId, Marked(sha, rows, batch, n);
      Marked(sha, rows, batch, n + 1) ==
        if id in rows then marked[id := MarkRow(sha, marked[id], batch.batchId, batch.leaves, n)] else marked
  {
    var last, a, b := batch.entries[n].actionId, Marked(sha, rows, batch, n), Marked(sha, rows, batch, n + 1);
    forall id | id in rows
      ensures b[id] == if id == last then MarkRow(sha, a[id], batch.batchId, batch.leaves, n) else a[id]
    {
      EntryIndexNext(batch.entries, n, id);
    }
    assert a.Keys == rows.Keys == b.Keys;
  }

  // ----- The store -----

  class BatchStore {
    const sha: Hash
    const leafHash: LeafHash
    var leaves: map<Text, LeafRow>
    var batches: map<Text, BatchRow>

    constructor (sha: Hash, leafHash: LeafHash)
      ensures this.sha == sha && this.leafHash == leafHash && leaves == map[] && batches == map[]
    {
      this.sha, this.leafHash := sha, leafHash;
      leaves, batches := map[], map[];
    }

    method Add(record: AuditRecord, now: int) returns (r: Result<Digest, BatchError>)
      modifies this
      ensures record.actionId == [] ==> r == Failure(MissingActionId) && leaves == old(leaves)
      ensures record.actionId != [] ==>
        r == Success(leafHash(record)) && leaves == old(leaves)[record.actionId := PendingRow(leafHash, record, now)]
      ensures record.actionId != [] ==>
        leaves[record.actionId] == LeafRow(leafHash(record), record, None, None, None, now)
      ensures batches == old(batches)
    {
      if record.actionId == [] {
        return Failure(MissingActionId);
      }
      leaves := leaves[record.actionId := PendingRow(leafHash, record, now)];
      r := Success(leafHash(record));
    }

    method Size() returns (n: nat)
      ensures n == |Pending(leaves)|
    {
      n := |Pending(leaves)|;
    }

    method Flush(batchId: Text, timestamp: int) returns (r: Result<ReadyBatch, BatchError>)
      ensures r.Failure? <==> Pending(leaves) == {}
      ensures r.Success? ==> IsFlush(sha, leaves, r.value) && r.value.batchId == batchId && r.value.timestamp == timestamp
    {
      var entries := SelectPending();
      if entries == [] {
        return Failure(EmptyBatch);
      }
      assert entries[0].actionId in IdsOf(entries);
      var hashes := LeavesOf(entries);
      var root := ComputeRoot(sha, hashes);
      r := Success(ReadyBatch(batchId, entries, hashes, root.value, timestamp));
    }

    /** SELECT ... WHERE batch_id IS NULL ORDER BY created_at */
    method SelectPending() returns (entries: seq<BatchEntry>)
      ensures DistinctIds(entries) && IdsOf(entries) == Pending(leaves)
      ensures forall i :: 0 <= i < |entries| ==> IsEntryOf(leaves, entries[i])
      ensures OldestFirst(leaves, entries)
    {
      entries := [];
      var rest := Pending(leaves);
      while rest != {}
        invariant Selected(leaves, entries, rest)
        decreases |rest|
      {
        ghost var earliest := Earliest(leaves, rest);
        var id :| id in rest && forall other :: other in rest ==> leaves[id].createdAt <= leaves[other].createdAt;
        SelectNext(leaves, entries, rest, id);
        entries := entries + [BatchEntry(id, leaves[id].record, leaves[id].leaf)];
        rest := rest - {id};
      }
    }

    method MarkAnchored(batch: ReadyBatch, anchorTxId: Text)
      requires |batch.entries| == |batch.leaves|
      modifies this
      ensures leaves == Marked(sha, old(leaves), batch, |batch.entries|)
      ensures batches == old(batches)[batch.batchId :=
        BatchRow(batch.merkleRoot, |batch.leaves|, anchorTxId, batch.timestamp)]
    {
      batches := batches[batch.batchId := BatchRow(batch.merkleRoot, |batch.leaves|, anchorTxId, batch.timestamp)];
      for i := 0 to |batch.entries|
        invariant leaves == Marked(sha, old(leaves), batch, i)
        invariant batches == old(batches)[batch.batchId :=
          BatchRow(batch.merkleRoot, |batch.leaves|, anchorTxId, batch.timestamp)]
      {
        MarkedNext(sha, old(leaves), batch, i);
        var proof := ComputeProof(sha, batch.leaves, i);
        var id := batch.entries[i].actionId;
        if id in leaves {
          leaves := leaves[id :=
            leaves[id].(batchId := Some(batch.batchId), leafIndex := Some(i), proof := Some(proof.value))];
        }
      }
    }

    method GetLeaf(actionId: Text) returns (row: Option<LeafRow>)
      ensures row == if actionId in leaves then Some(leaves[actionId]) else None
    {
      row := if actionId in leaves then Some(leaves[actionId]) else None;
    }
  }

  /** The selection of the pending rows when those in `rest` are still to come. */
  ghost predicate Selected(rows: map<Text, LeafRow>, entries: seq<BatchEntry>, rest: set<Text>) {
    && rest <= Pending(rows) && IdsOf(entries) == Pending(rows) - rest
    && DistinctIds(entries) && OldestFirst(rows, entries)
    && (forall i :: 0 <= i < |entries| ==> IsEntryOf(rows, entries[i]))
    && (forall i, id :: 0 <= i < |entries| && id in rest ==>
          rows[entries[i].actionId].createdAt <= rows[id].createdAt)
  }

  lemma SelectNext(rows: map<Text, LeafRow>, entries: seq<BatchEntry>, rest: set<Text>, id: Text)
    requires Selected(rows, entries, rest) && id in rest
    requires forall other :: other in rest ==> rows[id].createdAt <= rows[other].createdAt
    ensures Selected(rows, entries + [BatchEntry(id, rows[id].record, rows[id].leaf)], rest - {id})
  {
    var e := BatchEntry(id, rows[id].record, rows[id].leaf);
    var longer, n := entries + [e], |entries|;
    IdsSnoc(entries, e);
    assert longer[n] == e;
    forall i | 0 <= i < n
      ensures longer[i] == entries[i] && rows[longer[i].actionId].createdAt <= rows[id].createdAt
    {
      assert IsEntryOf(rows, entries[i]);
    }
    assert OldestFirst(rows, longer);
    assert IdsOf(longer) == Pending(rows) - (rest - {id});
    assert forall i, other :: 0 <= i < |longer| && other in rest - {id} ==>
      rows[longer[i].actionId].createdAt <= rows[other].createdAt;
  }

  lemma IdsSnoc(entries: seq<BatchEntry>, e: BatchEntry)
    ensures IdsOf(entries + [e]) == IdsOf(entries) + {e.actionId}
    ensures DistinctIds(entries) && e.actionId !in IdsOf(entries) ==> DistinctIds(entries + [e])
  {
    var longer := entries + [e];
    assert forall i :: 0 <= i < |entries| ==> longer[i] == entries[i] && entries[i].actionId in IdsOf(entries);
    assert longer[|entries|] == e;
    forall id | id in IdsOf(entries)
      ensures id in IdsOf(longer)
    {
      var i :| 0 <= i < |entries| && entries[i].actionId == id;
      assert longer[i].actionId == id;
    }
  }

  lemma {:induction false} Earliest(rows: map<Text, LeafRow>, ids: set<Text>) returns (earliest: Text)
    requires ids != {} && forall id :: id in ids ==> id in rows
    ensures earliest in ids && forall other :: other in ids ==> rows[earliest].createdAt <= rows[other].createdAt
    decreases |ids|
  {
    var id :| id in ids;
    var rest := ids - {id};
    assert forall other :: other in ids ==> other == id || other in rest;
    if rest == {} {
      earliest := id;
    } else {
      assert |rest| < |ids|;
      var e := Earliest(rows, rest);
      earliest := if rows[id].createdAt < rows[e].createdAt then id else e;
    }
  }
}
