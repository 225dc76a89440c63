/**
 The anchoring protocol as a state machine: records are added while any number of batches wait
 for their transaction, confirmations get lost, and the process can crash.
 */
module Anchoring {
  import opened Basics
  import opened Arc4
  import opened BoxKeys
  import opened Merkle
  import opened BatchStores
  import opened AnchorContracts

  /** A batch between its flush and its mark, and whether its transaction has been confirmed. */
  datatype Flight = Flight(batch: ReadyBatch, confirmed: bool)

  /** The tables, the chain, the batches in flight, and the entries of every batch ever flushed. */
  datatype State = State(
    rows: map<Text, LeafRow>, batches: map<Text, BatchRow>, roots: map<Bytes, AnchorRecord>,
    flights: map<ArcString, Flight>, flushed: map<ArcString, seq<BatchEntry>>)

  datatype Event =
    | Add(record: AuditRecord, now: int)
    | Flush(batchId: ArcString, batch: ReadyBatch)
    | Confirm(batchId: ArcString)
    | Lose(batchId: ArcString)
    | Drop(batchId: ArcString)
    | Mark(batchId: ArcString, txId: Text)
    | Crash

  predicate WellFormed(sha: Hash, batchId: ArcString, batch: ReadyBatch) {
    && batch.batchId == batchId && batchId != [] && batch.entries != [] && DistinctIds(batch.entries)
    && batch.leaves == LeavesOf(batch.entries) && batch.merkleRoot == Root(sha, batch.leaves)
    && RootEncodable(batchId, |batch.leaves|, batch.timestamp)
  }

  /** Batch ids are fresh; everything else is as the code allows it. */
  ghost predicate Enabled(sha: Hash, s: State, e: Event) {
    match e
    case Add(record, _) => record.actionId != []
    case Flush(b, batch) => b !in s.flushed && WellFormed(sha, b, batch) && IsFlush(sha, s.rows, batch)
    case Confirm(b) => b in s.flights && !s.flights[b].confirmed && WellFormed(sha, b, s.flights[b].batch)
    case Lose(b) => b in s.flights && !s.flights[b].confirmed && WellFormed(sha, b, s.flights[b].batch)
    case Drop(b) => b in s.flights
    case Mark(b, _) => b in s.flights && s.flights[b].confirmed && WellFormed(sha, b, s.flights[b].batch)
    case Crash => true
  }

  function Submitted(sha: Hash, s: State, b: ArcString): map<Bytes, AnchorRecord>
    requires b in s.flights && WellFormed(sha, b, s.flights[b].batch)
  {
    var batch := s.flights[b].batch;
    Recorded(sha, s.roots, b, batch.merkleRoot, |batch.leaves|, batch.timestamp)
  }

  ghost function Next(sha: Hash, leafHash: LeafHash, s: State, e: Event): State
    requires Enabled(sha, s, e)
  {
    match e
    case Add(record, now) => s.(rows := s.rows[record.actionId := PendingRow(leafHash, record, now)])
    case Flush(b, batch) =>
      s.(flights := s.flights[b := Flight(batch, false)], flushed := s.flushed[b := batch.entries])
    case Confirm(b) =>
      s.(roots := Submitted(sha, s, b), flights := s.flights[b := s.flights[b].(confirmed := true)])
    case Lose(b) => s.(roots := Submitted(sha, s, b), flights := s.flights - {b})
    case Drop(b) => s.(flights := s.flights - {b})
    case Mark(b, txId) =>
      var batch := s.flights[b].batch;
      s.(rows := Marked(sha, s.rows, batch, |batch.entries|),
         batches := s.batches[b := BatchRow(batch.merkleRoot, |batch.leaves|, txId, batch.timestamp)],
         flights := s.flights - {b})
    case Crash => s.(flights := map[])
  }

  // ----- The invariant -----

  /** The chain holds the root of the entries flushed under `b`. */
  ghost predicate RootStored(sha: Hash, s: State, b: ArcString) {
    && b in s.flushed && s.flushed[b] != []
    && RootOnChain(sha, s.roots, b) == Success(Root(sha, LeavesOf(s.flushed[b])))
  }

  ghost predicate FlightInv(sha: Hash, s: State, b: ArcString) {
    && b in s.flights && b in s.flushed && b !in s.batches
    && WellFormed(sha, b, s.flights[b].batch) && s.flushed[b] == s.flights[b].batch.entries
    && (forall entry :: entry in s.flushed[b] ==> entry.actionId in s.rows)
    && (s.flights[b].confirmed ==> RootStored(sha, s, b))
  }

  /** Row `id` was marked as entry `i` of the batch flushed under `b`. */
  ghost predicate AnchoredAs(sha: Hash, s: State, id: Text, b: ArcString, i: nat) {
    && id in s.rows && s.rows[id].batchId == Some(b) && s.rows[id].leafIndex == Some(i)
    && RootStored(sha, s, b) && b != [] && b in s.batches
    && i < |s.flushed[b]| && s.flushed[b][i].actionId == id
    && s.rows[id].proof == Some(Proof(sha, LeavesOf(s.flushed[b]), i))
  }

  ghost predicate RowInv(sha: Hash, s: State, id: Text) {
    && id in s.rows
    && match s.rows[id].batchId
       case None => s.rows[id].leafIndex.None? && s.rows[id].proof.None?
       case Some(b) => Fits16(|b|) && exists i: nat :: AnchoredAs(sha, s, id, b, i)
  }

  ghost predicate BatchInv(sha: Hash, s: State, b: Text) {
    && Fits16(|b|) && b in s.batches && b in s.flushed && s.flushed[b] != [] && DistinctIds(s.flushed[b])
    && s.batches[b].merkleRoot == Root(sha, LeavesOf(s.flushed[b])) && s.batches[b].leafCount == |s.flushed[b]|
  }

  ghost predicate Inv(sha: Hash, s: State) {
    && (forall b :: b in s.flights ==> FlightInv(sha, s, b))
    && (forall id :: id in s.rows ==> RowInv(sha, s, id))
    && (forall b :: b in s.batches ==> BatchInv(sha, s, b))
  }

  /** The batch ids used so far, and the one being flushed, name different boxes. */
  ghost predicate RootsApart(sha: Hash, s: State) {
    forall b, c :: b in s.flushed && c in s.flushed && b != c ==> BoxName(sha, AnchorBox(b)) != BoxName(sha, AnchorBox(c))
  }

  // ----- Every step keeps it -----

  lemma RootKept(sha: Hash, leafHash: LeafHash, s: State, e: Event, b: ArcString)
    requires Inv(sha, s) && RootsApart(sha, s) && Enabled(sha, s, e) && RootStored(sha, s, b)
    ensures RootStored(sha, Next(sha, leafHash, s, e), b)
  {
    if e.Confirm? || e.Lose? {
      assert FlightInv(sha, s, e.batchId);
    }
  }

  lemma FlightStep(sha: Hash, leafHash: LeafHash, s: State, e: Event, b: ArcString)
    requires Inv(sha, s) && RootsApart(sha, s) && Enabled(sha, s, e) && b in Next(sha, leafHash, s, e).flights
    ensures FlightInv(sha, Next(sha, leafHash, s, e), b)
  {
    BatchesWereFlushed(sha, s);
    if b in s.flights {
      assert FlightInv(sha, s, b);
      if s.flights[b].confirmed {
        RootKept(sha, leafHash, s, e, b);
      }
    } else {
      assert forall i :: 0 <= i < |e.batch.entries| ==> IsEntryOf(s.rows, e.batch.entries[i]);
    }
  }

  lemma BatchesWereFlushed(sha: Hash, s: State)
    requires Inv(sha, s)
    ensures forall b :: b in s.batches ==> Fits16(|b|) && b in s.flushed
  {
    forall b | b in s.batches ensures Fits16(|b|) && b in s.flushed {
      assert BatchInv(sha, s, b);
    }
  }

  lemma RowStep(sha: Hash, leafHash: LeafHash, s: State, e: Event, id: Text)
    requires Inv(sha, s) && RootsApart(sha, s) && Enabled(sha, s, e) && id in Next(sha, leafHash, s, e).rows
    ensures RowInv(sha, Next(sha, leafHash, s, e), id)
  {
    var s' := Next(sha, leafHash, s, e);
    if id in s.rows && s'.rows[id] == s.rows[id] {
      assert RowInv(sha, s, id);
      if s.rows[id].batchId.Some? {
        var b := s.rows[id].batchId.value;
        var i: nat :| AnchoredAs(sha, s, id, b, i);
        RootKept(sha, leafHash, s, e, b);
        assert AnchoredAs(sha, s', id, b, i);
      }
    } else if e.Mark? {
      MarkedRow(sha, leafHash, s, e, id);
    }
  }

  lemma MarkedRow(sha: Hash, leafHash: LeafHash, s: State, e: Event, id: Text)
    requires e.Mark? && Inv(sha, s) && RootsApart(sha, s) && Enabled(sha, s, e)
    requires id in s.rows && Next(sha, leafHash, s, e).rows[id] != s.rows[id]
    ensures RowInv(sha, Next(sha, leafHash, s, e), id)
  {
    var s', b := Next(sha, leafHash, s, e), e.batchId;
    var batch := s.flights[b].batch;
    assert FlightInv(sha, s, b);
    RootKept(sha, leafHash, s, e, b);
    assert batch.entries[..|batch.entries|] == batch.entries;
    var i := EntryIndex(batch.entries, id).value;
    assert AnchoredAs(sha, s', id, b, i);
  }

  lemma BatchStep(sha: Hash, leafHash: LeafHash, s: State, e: Event, b: Text)
    requires Inv(sha, s) && Enabled(sha, s, e) && b in Next(sha, leafHash, s, e).batches
    ensures BatchInv(sha, Next(sha, leafHash, s, e), b)
  {
    if b in s.batches {
      assert BatchInv(sha, s, b);
    }
    if e.Mark? {
      assert FlightInv(sha, s, e.batchId);
    }
  }

  lemma InvStep(sha: Hash, leafHash: LeafHash, s: State, e: Event)
    requires Inv(sha, s) && RootsApart(sha, s) && Enabled(sha, s, e)
    ensures Inv(sha, Next(sha, leafHash, s, e))
  {
    var s' := Next(sha, leafHash, s, e);
    forall b | b in s'.flights ensures FlightInv(sha, s', b) {
      FlightStep(sha, leafHash, s, e, b);
    }
    forall id | id in s'.rows ensures RowInv(sha, s', id) {
      RowStep(sha, leafHash, s, e, id);
    }
    forall b | b in s'.batches ensures BatchInv(sha, s', b) {
      BatchStep(sha, leafHash, s, e, b);
    }
  }
}
