/**
 The positions of leaves in their batches: over whole executions, the anchored rows of a batch
 correspond one to one to the positions below its recorded leaf count.
 */
module AnchoringPositions {
  import opened Basics
  import opened Arc4
  import opened BatchStores
  import opened Anchoring
  import opened AnchoringTheorems

  // ----- Positions within a batch -----

  /** Every entry of the batch is anchored at its own position. */
  ghost predicate FullyAnchored(sha: Hash, s: State, b: ArcString) {
    b in s.flushed && forall i :: 0 <= i < |s.flushed[b]| ==> AnchoredAs(sha, s, s.flushed[b][i].actionId, b, i)
  }

  lemma MarkAnchorsAll(sha: Hash, leafHash: LeafHash, s: State, b: ArcString, txId: Text)
    requires Inv(sha, s) && RootsApart(sha, s) && Enabled(sha, s, Mark(b, txId))
    ensures FullyAnchored(sha, Next(sha, leafHash, s, Mark(b, txId)), b)
  {
    var s', entries := Next(sha, leafHash, s, Mark(b, txId)), s.flushed[b];
    assert FlightInv(sha, s, b);
    RootKept(sha, leafHash, s, Mark(b, txId), b);
    forall i | 0 <= i < |entries|
      ensures AnchoredAs(sha, s', entries[i].actionId, b, i)
    {
      assert entries[i] in entries;
      assert entries[..|entries|] == entries;
      EntryIndexIs(entries, i);
    }
  }

  /** The event neither re-adds an action of the batch nor marks a batch that shares one with it. */
  predicate LeavesAlone(s: State, e: Event, b: ArcString)
    requires b in s.flushed
  {
    match e
    case Add(record, _) => record.actionId !in IdsOf(s.flushed[b])
    case Mark(c, _) => c in s.flights && IdsOf(s.flights[c].batch.entries) !! IdsOf(s.flushed[b])
    case _ => true
  }

  lemma FullyAnchoredKept(sha: Hash, leafHash: LeafHash, s: State, e: Event, b: ArcString)
    requires Inv(sha, s) && RootsApart(sha, s) && Enabled(sha, s, e)
    requires FullyAnchored(sha, s, b) && LeavesAlone(s, e, b)
    ensures FullyAnchored(sha, Next(sha, leafHash, s, e), b)
  {
    var s', entries := Next(sha, leafHash, s, e), s.flushed[b];
    assert s'.flushed[b] == entries;
    forall i | 0 <= i < |entries|
      ensures AnchoredAs(sha, s', entries[i].actionId, b, i)
    {
      var id := entries[i].actionId;
      assert AnchoredAs(sha, s, id, b, i) && id in IdsOf(entries);
      RootKept(sha, leafHash, s, e, b);
      if e.Mark? {
        NotMarked(sha, s, e.batchId, id);
      }
    }
  }

  lemma NotMarked(sha: Hash, s: State, c: ArcString, id: Text)
    requires c in s.flights && WellFormed(sha, c, s.flights[c].batch) && id in s.rows
    requires id !in IdsOf(s.flights[c].batch.entries)
    ensures Marked(sha, s.rows, s.flights[c].batch, |s.flights[c].batch.entries|)[id] == s.rows[id]
  {
    var entries := s.flights[c].batch.entries;
    assert entries[..|entries|] == entries;
    EntryIndexFound(entries, id);
  }

  /** Every event leaves the batches alone that are recorded when it happens. */
  ghost predicate AllLeaveAlone(states: seq<State>, events: seq<Event>)
    requires |states| == |events| + 1
  {
    forall i, b :: 0 <= i < |events| && b in states[i].batches && b in states[i].flushed ==>
      LeavesAlone(states[i], events[i], b)
  }

  ghost predicate AllFullyAnchored(sha: Hash, s: State) {
    forall b :: b in s.batches ==> Fits16(|b|) && FullyAnchored(sha, s, b)
  }

  lemma AllAnchoredStep(sha: Hash, leafHash: LeafHash, s: State, e: Event)
    requires Inv(sha, s) && RootsApart(sha, s) && Enabled(sha, s, e) && AllFullyAnchored(sha, s)
    requires forall b :: b in s.batches && b in s.flushed ==> LeavesAlone(s, e, b)
    ensures AllFullyAnchored(sha, Next(sha, leafHash, s, e))
  {
    var s' := Next(sha, leafHash, s, e);
    forall b | b in s'.batches
      ensures Fits16(|b|) && FullyAnchored(sha, s', b)
    {
      if e.Mark? && b == e.batchId {
        MarkAnchorsAll(sha, leafHash, s, b, e.txId);
      } else {
        FullyAnchoredKept(sha, leafHash, s, e, b);
      }
    }
  }

  lemma FrontLeavesAlone(states: seq<State>, events: seq<Event>)
    requires |states| == |events| + 1 && events != [] && AllLeaveAlone(states, events)
    ensures AllLeaveAlone(states[..|events|], events[..|events| - 1])
    ensures
      var s, e := states[|events| - 1], events[|events| - 1];
      forall b :: b in s.batches && b in s.flushed ==> LeavesAlone(s, e, b)
  {
    var n := |events|;
    assert forall i :: 0 <= i < n - 1 ==> states[..n][i] == states[i] && events[..n - 1][i] == events[i];
  }

  /** In every reachable state every recorded batch is fully anchored, if none was disturbed. */
  lemma {:induction false} FullyAnchoredReachable(sha: Hash, leafHash: LeafHash, states: seq<State>, events: seq<Event>)
    requires IsExecution(sha, leafHash, states, events) && CollisionFree(sha, states[|events|])
    requires AllLeaveAlone(states, events)
    ensures Inv(sha, states[|events|]) && AllFullyAnchored(sha, states[|events|])
    decreases |events|
  {
    InvReachable(sha, leafHash, states, events);
    var n := |events|;
    if n > 0 {
      var s, e := states[n - 1], events[n - 1];
      var earlier, before := states[..n], events[..n - 1];
      assert earlier[|before|] == s;
      EarlierCollisionFree(sha, leafHash, s, e, states[n]);
      FrontLeavesAlone(states, events);
      FullyAnchoredReachable(sha, leafHash, earlier, before);
      ApartIfCollisionFree(sha, s);
      AllAnchoredStep(sha, leafHash, s, e);
    }
  }

  // ----- Orderly executions -----

  /** No two batches in flight share an action, and no action of a recorded batch is added again. */
  predicate Orderly(s: State, e: Event) {
    match e
    case Flush(_, batch) => forall c :: c in s.flights ==> IdsOf(s.flights[c].batch.entries) !! IdsOf(batch.entries)
    case Add(record, _) => forall b :: b in s.batches && b in s.flushed ==> record.actionId !in IdsOf(s.flushed[b])
    case _ => true
  }

  ghost predicate AllOrderly(states: seq<State>, events: seq<Event>)
    requires |states| == |events| + 1
  {
    forall i :: 0 <= i < |events| ==> Orderly(states[i], events[i])
  }

  /** A batch in flight shares no action with another one, nor with a recorded one. */
  ghost predicate Disjoint(s: State) {
    && (forall c, d :: c in s.flights && d in s.flights && c != d ==>
          IdsOf(s.flights[c].batch.entries) !! IdsOf(s.flights[d].batch.entries))
    && (forall c, b :: c in s.flights && b in s.batches && b in s.flushed ==>
          IdsOf(s.flights[c].batch.entries) !! IdsOf(s.flushed[b]))
  }

  lemma OrderlyLeavesAlone(sha: Hash, s: State, e: Event)
    requires Enabled(sha, s, e) && Disjoint(s) && Orderly(s, e)
    ensures forall b :: b in s.batches && b in s.flushed ==> LeavesAlone(s, e, b)
  {
  }

  lemma PendingIsNotAnchored(sha: Hash, s: State, b: ArcString, batch: ReadyBatch)
    requires FullyAnchored(sha, s, b) && IsFlush(sha, s.rows, batch)
    ensures IdsOf(batch.entries) !! IdsOf(s.flushed[b])
  {
    forall id | id in IdsOf(s.flushed[b])
      ensures id !in Pending(s.rows)
    {
      var i :| 0 <= i < |s.flushed[b]| && s.flushed[b][i].actionId == id;
      assert AnchoredAs(sha, s, id, b, i);
    }
  }

  lemma DisjointStep(sha: Hash, leafHash: LeafHash, s: State, e: Event)
    requires Inv(sha, s) && Enabled(sha, s, e) && AllFullyAnchored(sha, s) && Disjoint(s) && Orderly(s, e)
    ensures Disjoint(Next(sha, leafHash, s, e))
  {
    if e.Flush? {
      FlushIsDisjoint(sha, leafHash, s, e);
    } else if e.Mark? {
      MarkIsDisjoint(sha, leafHash, s, e);
    }
  }

  lemma FlushIsDisjoint(sha: Hash, leafHash: LeafHash, s: State, e: Event)
    requires e.Flush? && Inv(sha, s) && Enabled(sha, s, e) && AllFullyAnchored(sha, s) && Disjoint(s) && Orderly(s, e)
    ensures Disjoint(Next(sha, leafHash, s, e))
  {
    BatchesWereFlushed(sha, s);
    forall b | b in s.batches
      ensures IdsOf(e.batch.entries) !! IdsOf(s.flushed[b])
    {
      PendingIsNotAnchored(sha, s, b, e.batch);
    }
  }

  lemma MarkIsDisjoint(sha: Hash, leafHash: LeafHash, s: State, e: Event)
    requires e.Mark? && Inv(sha, s) && Enabled(sha, s, e) && Disjoint(s)
    ensures Disjoint(Next(sha, leafHash, s, e))
  {
    assert FlightInv(sha, s, e.batchId);
  }

  lemma OrderlyStep(sha: Hash, leafHash: LeafHash, s: State, e: Event, s': State)
    requires IsStep(sha, leafHash, s, e, s') && Inv(sha, s) && AllFullyAnchored(sha, s) && Disjoint(s) && Orderly(s, e)
    ensures Disjoint(s') && forall b :: b in s.batches && b in s.flushed ==> LeavesAlone(s, e, b)
  {
    OrderlyLeavesAlone(sha, s, e);
    DisjointStep(sha, leafHash, s, e);
  }

  lemma FrontIsOrderly(states: seq<State>, events: seq<Event>)
    requires |states| == |events| + 1 && events != [] && AllOrderly(states, events)
    ensures AllOrderly(states[..|events|], events[..|events| - 1])
    ensures Orderly(states[|events| - 1], events[|events| - 1])
  {
    var n := |events|;
    assert forall i :: 0 <= i < n - 1 ==> states[..n][i] == states[i] && events[..n - 1][i] == events[i];
  }

  lemma LastLeavesAlone(states: seq<State>, events: seq<Event>)
    requires |states| == |events| + 1 && events != []
    requires AllLeaveAlone(states[..|events|], events[..|events| - 1])
    requires
      var s, e := states[|events| - 1], events[|events| - 1];
      forall b :: b in s.batches && b in s.flushed ==> LeavesAlone(s, e, b)
    ensures AllLeaveAlone(states, events)
  {
    var n := |events|;
    assert forall i :: 0 <= i < n - 1 ==> states[..n][i] == states[i] && events[..n - 1][i] == events[i];
  }

  /** An orderly execution disturbs no recorded batch. */
  lemma {:induction false} OrderlyReachable(sha: Hash, leafHash: LeafHash, states: seq<State>, events: seq<Event>)
    requires IsExecution(sha, leafHash, states, events) && CollisionFree(sha, states[|events|])
    requires AllOrderly(states, events)
    ensures AllLeaveAlone(states, events) && Disjoint(states[|events|])
    decreases |events|
  {
    var n := |events|;
    if n > 0 {
      var s, e := states[n - 1], events[n - 1];
      var earlier, before := states[..n], events[..n - 1];
      assert earlier[|before|] == s;
      FrontIsOrderly(states, events);
      EarlierCollisionFree(sha, leafHash, s, e, states[n]);
      OrderlyReachable(sha, leafHash, earlier, before);
      FullyAnchoredReachable(sha, leafHash, earlier, before);
      OrderlyStep(sha, leafHash, s, e, states[n]);
      LastLeavesAlone(states, events);
    }
  }

  // ----- The bijection -----

  /** Row `id` carries the batch id `b` and the leaf index `i`. */
  predicate AtPosition(rows: map<Text, LeafRow>, b: Text, id: Text, i: nat) {
    id in rows && rows[id].batchId == Some(b) && rows[id].leafIndex == Some(i)
  }

  predicate Occupied(rows: map<Text, LeafRow>, b: Text, i: nat) {
    exists id :: id in rows && AtPosition(rows, b, id, i)
  }

  /** The rows with batch id `b` and the positions below `count` correspond one to one. */
  ghost predicate Bijection(rows: map<Text, LeafRow>, b: Text, count: nat) {
    && (forall id :: id in rows && rows[id].batchId == Some(b) ==> exists i: nat :: i < count && AtPosition(rows, b, id, i))
    && (forall i: nat :: i < count ==> Occupied(rows, b, i))
    && (forall id, id', i: nat :: AtPosition(rows, b, id, i) && AtPosition(rows, b, id', i) ==> id == id')
  }

  /**
   In every state of an execution in which batches in flight share no action and no action of a
   recorded batch is added again, the rows that carry a recorded batch's id and the positions below
   its recorded leaf count correspond one to one.
   */
  lemma PositionsAreABijection(sha: Hash, leafHash: LeafHash, states: seq<State>, events: seq<Event>, b: Text)
    requires IsExecution(sha, leafHash, states, events) && CollisionFree(sha, states[|events|])
    requires AllOrderly(states, events) && b in states[|events|].batches
    ensures Bijection(states[|events|].rows, b, states[|events|].batches[b].leafCount)
  {
    OrderlyReachable(sha, leafHash, states, events);
    FullyAnchoredReachable(sha, leafHash, states, events);
    BatchIsABijection(sha, states[|events|], b);
  }

  /** What a row says of its position is true of the batch. */
  lemma PositionIsEntry(sha: Hash, s: State, b: Text, id: Text)
    requires Inv(sha, s) && b in s.batches && id in s.rows && s.rows[id].batchId == Some(b)
    ensures Fits16(|b|) && b in s.flushed && s.rows[id].leafIndex.Some?
    ensures
      var i := s.rows[id].leafIndex.value;
      i < s.batches[b].leafCount == |s.flushed[b]| && s.flushed[b][i].actionId == id
  {
    assert BatchInv(sha, s, b);
    assert RowInv(sha, s, id);
    var i: nat :| AnchoredAs(sha, s, id, b, i);
  }

  lemma BatchIsABijection(sha: Hash, s: State, b: Text)
    requires Inv(sha, s) && AllFullyAnchored(sha, s) && b in s.batches
    ensures Bijection(s.rows, b, s.batches[b].leafCount)
  {
    forall id | id in s.rows && s.rows[id].batchId == Some(b)
      ensures AtPosition(s.rows, b, id, s.rows[id].leafIndex.value) && s.rows[id].leafIndex.value < s.batches[b].leafCount
    {
      PositionIsEntry(sha, s, b, id);
    }
    forall i: nat | i < s.batches[b].leafCount
      ensures Occupied(s.rows, b, i)
    {
      EntryIsPosition(sha, s, b, i);
    }
    forall id, id', i: nat | AtPosition(s.rows, b, id, i) && AtPosition(s.rows, b, id', i)
      ensures id == id'
    {
      PositionIsEntry(sha, s, b, id);
      PositionIsEntry(sha, s, b, id');
    }
  }

  lemma EntryIsPosition(sha: Hash, s: State, b: Text, i: nat)
    requires Inv(sha, s) && AllFullyAnchored(sha, s) && b in s.batches && i < s.batches[b].leafCount
    ensures Occupied(s.rows, b, i)
  {
    assert BatchInv(sha, s, b);
    var id := s.flushed[b][i].actionId;
    assert AnchoredAs(sha, s, id, b, i);
    assert AtPosition(s.rows, b, id, i);
  }
}
