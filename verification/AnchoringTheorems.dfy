/**
 What the anchoring protocol guarantees in every reachable state: when a record verifies, how
 leaves are conserved, and how far the positions in a batch are preserved.
 */
module AnchoringTheorems {
  import opened Basics
  import opened Arc4
  import opened BoxKeys
  import opened Merkle
  import opened MerkleTheorems
  import opened BatchStores
  import opened AnchorContracts
  import opened Anchoring

  const EMPTY := State(map[], map[], map[], map[], map[])

  ghost predicate IsStep(sha: Hash, leafHash: LeafHash, s: State, e: Event, s': State) {
    Enabled(sha, s, e) && s' == Next(sha, leafHash, s, e)
  }

  /** Any interleaving of additions, flushes, confirmations, losses, marks and crashes. */
  ghost predicate IsExecution(sha: Hash, leafHash: LeafHash, states: seq<State>, events: seq<Event>)
    decreases |events|
  {
    && |states| == |events| + 1
    && var n := |events|;
       if n == 0 then states[0] == EMPTY
       else
         && IsExecution(sha, leafHash, states[..n], events[..n - 1])
         && IsStep(sha, leafHash, states[n - 1], events[n - 1], states[n])
  }

  lemma StepExtends(sha: Hash, leafHash: LeafHash, states: seq<State>, events: seq<Event>, e: Event, s: State)
    requires IsExecution(sha, leafHash, states, events) && IsStep(sha, leafHash, states[|events|], e, s)
    ensures IsExecution(sha, leafHash, states + [s], events + [e])
  {
    var states', events' := states + [s], events + [e];
    assert states'[..|events'|] == states && events'[..|events|] == events;
    assert states'[|events|] == states[|events|] && states'[|events'|] == s;
  }

  /** The hash has no collision among the encoded batch ids of the execution. */
  ghost predicate CollisionFree(sha: Hash, s: State) {
    forall b, c :: b in s.flushed && c in s.flushed ==> !Collide(sha, Preimage(AnchorBox(b)), Preimage(AnchorBox(c)))
  }

  lemma ApartIfCollisionFree(sha: Hash, s: State)
    requires CollisionFree(sha, s)
    ensures RootsApart(sha, s)
  {
    forall b, c | b in s.flushed && c in s.flushed && b != c
      ensures BoxName(sha, AnchorBox(b)) != BoxName(sha, AnchorBox(c))
    {
      NamesDistinct(sha, AnchorBox(b), AnchorBox(c));
    }
  }

  lemma {:induction false} InvReachable(sha: Hash, leafHash: LeafHash, states: seq<State>, events: seq<Event>)
    requires IsExecution(sha, leafHash, states, events) && CollisionFree(sha, states[|events|])
    ensures Inv(sha, states[|events|])
    decreases |events|
  {
    var n := |events|;
    if n > 0 {
      var s, e := states[n - 1], events[n - 1];
      var earlier, before := states[..n], events[..n - 1];
      assert earlier[|before|] == s;
      EarlierCollisionFree(sha, leafHash, s, e, states[n]);
      InvReachable(sha, leafHash, earlier, before);
      KeepsInv(sha, leafHash, s, e, states[n]);
    }
  }

  lemma EarlierCollisionFree(sha: Hash, leafHash: LeafHash, s: State, e: Event, s': State)
    requires IsStep(sha, leafHash, s, e, s') && CollisionFree(sha, s')
    ensures CollisionFree(sha, s)
  {
    assert forall b :: b in s.flushed ==> b in s'.flushed;
  }

  lemma KeepsInv(sha: Hash, leafHash: LeafHash, s: State, e: Event, s': State)
    requires IsStep(sha, leafHash, s, e, s') && CollisionFree(sha, s) && Inv(sha, s)
    ensures Inv(sha, s')
  {
    ApartIfCollisionFree(sha, s);
    InvStep(sha, leafHash, s, e);
  }

  // ----- When a record verifies -----

  /** Two leaves that the same proof leads to the same digest are equal, or a collision is exhibited. */
  lemma {:induction false} FoldInjective(sha: Hash, x: Digest, y: Digest, proof: seq<Digest>) returns (e: Evidence)
    requires Fold(sha, x, proof) == Fold(sha, y, proof)
    ensures x == y || (e.Collision? && Collide(sha, e.x, e.y))
  {
    e := IsNode;
    if proof != [] {
      var k := |proof| - 1;
      var fx, fy, s := Fold(sha, x, proof[..k]), Fold(sha, y, proof[..k]), proof[k];
      PairInjective(fx, s, fy, s);
      if Pair(fx, s) != Pair(fy, s) {
        e := Collision(Pair(fx, s), Pair(fy, s));
      } else {
        e := FoldInjective(sha, x, y, proof[..k]);
      }
    }
  }

  /** The row's present leaf is the one that its batch was built with. */
  ghost predicate MatchesBatch(sha: Hash, s: State, id: Text, b: ArcString) {
    exists i: nat :: AnchoredAs(sha, s, id, b, i) && s.rows[id].leaf == s.flushed[b][i].leaf
  }

  /**
   In every state of every execution, without any assumption on what is added when, a record is
   reported as pending or as anchored and never as unavailable; an anchored record verifies
   exactly when its leaf is the one its batch was built with, unless the hash collides.
   */
  lemma VerifyExactly(sha: Hash, leafHash: LeafHash, states: seq<State>, events: seq<Event>, id: Text)
    returns (e: Evidence)
    requires IsExecution(sha, leafHash, states, events) && CollisionFree(sha, states[|events|])
    requires id in states[|events|].rows
    ensures
      var s := states[|events|];
      match s.rows[id].batchId
      case None => VerifyOutcome(sha, s.rows, s.roots, id) == AnchorPending
      case Some(b) =>
        && Fits16(|b|)
        && var matches := MatchesBatch(sha, s, id, b);
           || VerifyOutcome(sha, s.rows, s.roots, id) == Anchored(b, matches)
           || (!matches && e.Collision? && Collide(sha, e.x, e.y))
  {
    var s := states[|events|];
    e := IsNode;
    InvReachable(sha, leafHash, states, events);
    assert RowInv(sha, s, id);
    if s.rows[id].batchId.Some? {
      var b := s.rows[id].batchId.value;
      var i: nat :| AnchoredAs(sha, s, id, b, i);
      var leaves := LeavesOf(s.flushed[b]);
      Completeness(sha, leaves, i);
      if Fold(sha, s.rows[id].leaf, Proof(sha, leaves, i)) == Root(sha, leaves) {
        e := FoldInjective(sha, s.rows[id].leaf, leaves[i], Proof(sha, leaves, i));
      }
      assert MatchesBatch(sha, s, id, b) <==> s.rows[id].leaf == leaves[i];
    }
  }

  // ----- Executions without a conflicting re-add -----

  /** The addition does not replace the record of an action that a waiting batch holds by a different one. */
  predicate SafeAdd(leafHash: LeafHash, s: State, e: Event) {
    e.Add? ==>
      forall b, entry :: b in s.flights && entry in s.flights[b].batch.entries && entry.actionId == e.record.actionId ==>
        entry.leaf == leafHash(e.record)
  }

  /** Waiting batches and anchored rows agree with the rows' present leaves. */
  ghost predicate LeavesAgree(sha: Hash, s: State) {
    && (forall b, i: nat :: b in s.flights && i < |s.flights[b].batch.entries| ==>
          var entry := s.flights[b].batch.entries[i];
          entry.actionId in s.rows && s.rows[entry.actionId].leaf == entry.leaf)
    && (forall id, b, i: nat :: id in s.rows && b in s.flushed && AnchoredAs(sha, s, id, b, i) ==>
          s.rows[id].leaf == s.flushed[b][i].leaf)
  }

  lemma LeavesAgreeStep(sha: Hash, leafHash: LeafHash, s: State, e: Event)
    requires Inv(sha, s) && RootsApart(sha, s) && Enabled(sha, s, e) && SafeAdd(leafHash, s, e) && LeavesAgree(sha, s)
    ensures LeavesAgree(sha, Next(sha, leafHash, s, e))
  {
    var s' := Next(sha, leafHash, s, e);
    forall b, i: nat | b in s'.flights && i < |s'.flights[b].batch.entries|
      ensures var entry := s'.flights[b].batch.entries[i];
        entry.actionId in s'.rows && s'.rows[entry.actionId].leaf == entry.leaf
    {
      if e.Flush? && b == e.batchId {
        assert IsEntryOf(s.rows, e.batch.entries[i]);
      } else {
        assert s'.flights[b].batch == s.flights[b].batch;
      }
    }
    forall id, b, i: nat | id in s'.rows && b in s'.flushed && AnchoredAs(sha, s', id, b, i)
      ensures s'.rows[id].leaf == s'.flushed[b][i].leaf
    {
      AnchoredAgreeStep(sha, leafHash, s, e, id, b, i);
    }
  }

  lemma AnchoredAgreeStep(sha: Hash, leafHash: LeafHash, s: State, e: Event, id: Text, b: ArcString, i: nat)
    requires Inv(sha, s) && RootsApart(sha, s) && Enabled(sha, s, e) && LeavesAgree(sha, s)
    requires AnchoredAs(sha, Next(sha, leafHash, s, e), id, b, i)
    ensures Next(sha, leafHash, s, e).rows[id].leaf == Next(sha, leafHash, s, e).flushed[b][i].leaf
  {
    var s' := Next(sha, leafHash, s, e);
    if id in s.rows && s'.rows[id] == s.rows[id] {
      assert RowInv(sha, s, id);
      var j: nat :| AnchoredAs(sha, s, id, b, j);
      assert j == i && s'.flushed[b] == s.flushed[b];
    } else if e.Mark? {
      assert FlightInv(sha, s, e.batchId);
      assert s.flights[b].batch.entries[i].actionId == id;
    }
  }

  /** Every addition of the execution is safe in the state in which it happens. */
  ghost predicate AllSafe(leafHash: LeafHash, states: seq<State>, events: seq<Event>)
    requires |states| == |events| + 1
  {
    forall i :: 0 <= i < |events| ==> SafeAdd(leafHash, states[i], events[i])
  }

  lemma {:induction false} LeavesAgreeReachable(sha: Hash, leafHash: LeafHash, states: seq<State>, events: seq<Event>)
    requires IsExecution(sha, leafHash, states, events) && CollisionFree(sha, states[|events|])
    requires AllSafe(leafHash, states, events)
    ensures Inv(sha, states[|events|]) && LeavesAgree(sha, states[|events|])
    decreases |events|
  {
    InvReachable(sha, leafHash, states, events);
    var n := |events|;
    if n > 0 {
      var s, e := states[n - 1], events[n - 1];
      var earlier, before := states[..n], events[..n - 1];
      assert earlier[|before|] == s;
      EarlierCollisionFree(sha, leafHash, s, e, states[n]);
      assert forall i :: 0 <= i < n - 1 ==> earlier[i] == states[i] && before[i] == events[i];
      LeavesAgreeReachable(sha, leafHash, earlier, before);
      ApartIfCollisionFree(sha, s);
      LeavesAgreeStep(sha, leafHash, s, e);
    }
  }

  /**
   Verification: with fresh batch ids and no conflicting re-add of an action in flight, in every
   reachable state every row that has a batch id verifies against the root on the chain, however
   the additions, overlapping flushes, lost confirmations, crashes and marks were interleaved.
   */
  lemma AnchoredRecordsVerify(sha: Hash, leafHash: LeafHash, states: seq<State>, events: seq<Event>, id: Text)
    requires IsExecution(sha, leafHash, states, events) && CollisionFree(sha, states[|events|])
    requires AllSafe(leafHash, states, events)
    requires id in states[|events|].rows && states[|events|].rows[id].batchId.Some?
    ensures
      var s := states[|events|];
      VerifyOutcome(sha, s.rows, s.roots, id) == Anchored(s.rows[id].batchId.value, true)
  {
    var s := states[|events|];
    LeavesAgreeReachable(sha, leafHash, states, events);
    assert RowInv(sha, s, id);
    var b := s.rows[id].batchId.value;
    var i: nat :| AnchoredAs(sha, s, id, b, i);
    Completeness(sha, LeavesOf(s.flushed[b]), i);
  }

  /**
   The restriction on re-adding is needed: when the record of an action is replaced while its
   batch waits, the mark attaches a proof that the new leaf fails.
   */
  lemma ReAddInFlightFails(sha: Hash, leafHash: LeafHash, first: AuditRecord, second: AuditRecord,
                           batchId: ArcString, txId: Text)
    returns (states: seq<State>, events: seq<Event>)
    requires first.actionId == second.actionId != [] && leafHash(first) != leafHash(second) && batchId != []
    ensures IsExecution(sha, leafHash, states, events) && first.actionId in states[|events|].rows
    ensures var s := states[|events|];
      VerifyOutcome(sha, s.rows, s.roots, first.actionId) == Anchored(batchId, false)
  {
    var id, leaf := first.actionId, leafHash(first);
    var batch := ReadyBatch(batchId, [BatchEntry(id, first, leaf)], [leaf], leaf, 0);
    var front, before, s3 := ReAddedInFlight(sha, leafHash, first, second, batchId, batch);
    var s4 := Next(sha, leafHash, s3, Confirm(batchId));
    StepExtends(sha, leafHash, front, before, Confirm(batchId), s4);
    var s5 := Next(sha, leafHash, s4, Mark(batchId, txId));
    StepExtends(sha, leafHash, front + [s4], before + [Confirm(batchId)], Mark(batchId, txId), s5);
    states, events := front + [s4] + [s5], before + [Confirm(batchId)] + [Mark(batchId, txId)];
    assert batch.entries[..1] == batch.entries && EntryIndex(batch.entries, id) == Some(0);
    assert s5.rows[id] == MarkRow(sha, PendingRow(leafHash, second, 0), batchId, [leaf], 0);
  }

  /** The record is added, flushed, and added again with other content. */
  lemma ReAddedInFlight(sha: Hash, leafHash: LeafHash, first: AuditRecord, second: AuditRecord, batchId: ArcString,
                        batch: ReadyBatch)
    returns (states: seq<State>, events: seq<Event>, s: State)
    requires first.actionId == second.actionId != [] && batchId != []
    requires batch == ReadyBatch(batchId, [BatchEntry(first.actionId, first, leafHash(first))], [leafHash(first)],
                                 leafHash(first), 0)
    ensures IsExecution(sha, leafHash, states, events) && states[|events|] == s
    ensures s == State(map[second.actionId := PendingRow(leafHash, second, 0)], map[], map[],
                       map[batchId := Flight(batch, false)], map[batchId := batch.entries])
    ensures WellFormed(sha, batchId, batch)
  {
    var e0, e1, e2 := Event.Add(first, 0), Event.Flush(batchId, batch), Event.Add(second, 0);
    var s1 := Next(sha, leafHash, EMPTY, e0);
    SingleFlush(sha, leafHash, first, batch);
    var s2 := Next(sha, leafHash, s1, e1);
    s := Next(sha, leafHash, s2, e2);
    StepExtends(sha, leafHash, [EMPTY], [], e0, s1);
    StepExtends(sha, leafHash, [EMPTY] + [s1], [] + [e0], e1, s2);
    StepExtends(sha, leafHash, [EMPTY] + [s1] + [s2], [] + [e0] + [e1], e2, s);
    states, events := [EMPTY] + [s1] + [s2] + [s], [] + [e0] + [e1] + [e2];
  }

  lemma SingleFlush(sha: Hash, leafHash: LeafHash, record: AuditRecord, batch: ReadyBatch)
    requires batch.entries == [BatchEntry(record.actionId, record, leafHash(record))]
    requires batch.leaves == [leafHash(record)] && batch.merkleRoot == leafHash(record)
    ensures IsFlush(sha, map[record.actionId := PendingRow(leafHash, record, 0)], batch)
    ensures Root(sha, batch.leaves) == leafHash(record) && LeavesOf(batch.entries) == batch.leaves
  {
    var rows := map[record.actionId := PendingRow(leafHash, record, 0)];
    assert batch.entries[0].actionId == record.actionId;
    assert IdsOf(batch.entries) == {record.actionId} == Pending(rows);
  }

  // ----- Conservation of leaves -----

  /**
   No step loses a leaf: an addition makes its action pending, a mark takes exactly the ids of its
   batch out of the pending ones, so that additions made meanwhile stay, and nothing else changes.
   */
  lemma Conservation(sha: Hash, leafHash: LeafHash, s: State, e: Event)
    requires Inv(sha, s) && Enabled(sha, s, e)
    ensures
      var rows, rows' := s.rows, Next(sha, leafHash, s, e).rows;
      match e
      case Add(record, _) =>
        Pending(rows') == Pending(rows) + {record.actionId} && rows'.Keys == rows.Keys + {record.actionId}
      case Mark(b, _) =>
        Pending(rows') == Pending(rows) - IdsOf(s.flights[b].batch.entries) && rows'.Keys == rows.Keys
      case _ => rows' == rows
  {
    if e.Mark? {
      MarkTakesTheBatch(sha, s.rows, s.flights[e.batchId].batch);
    }
  }

  lemma MarkTakesTheBatch(sha: Hash, rows: map<Text, LeafRow>, batch: ReadyBatch)
    requires |batch.entries| == |batch.leaves|
    ensures
      var rows' := Marked(sha, rows, batch, |batch.entries|);
      Pending(rows') == Pending(rows) - IdsOf(batch.entries) && rows'.Keys == rows.Keys
  {
    assert batch.entries[..|batch.entries|] == batch.entries;
    forall id | id in rows
      ensures EntryIndex(batch.entries, id).Some? <==> id in IdsOf(batch.entries)
    {
      EntryIndexFound(batch.entries, id);
    }
  }

  /** In every reachable state an added action is pending or anchored, never both and never neither. */
  lemma PendingOrAnchored(sha: Hash, leafHash: LeafHash, states: seq<State>, events: seq<Event>, id: Text)
    requires IsExecution(sha, leafHash, states, events) && CollisionFree(sha, states[|events|])
    requires id in states[|events|].rows
    ensures
      var s := states[|events|];
      id in Pending(s.rows) <==>
        !exists b: ArcString, i: nat :: AnchoredAs(sha, s, id, b, i)
  {
    var s := states[|events|];
    InvReachable(sha, leafHash, states, events);
    assert RowInv(sha, s, id);
    if id !in Pending(s.rows) {
      var b := s.rows[id].batchId.value;
      var i: nat :| AnchoredAs(sha, s, id, b, i);
    }
  }

  predicate Added(events: seq<Event>, id: Text) {
    exists i :: 0 <= i < |events| && events[i].Add? && events[i].record.actionId == id
  }

  lemma AddedSnoc(events: seq<Event>, e: Event, id: Text)
    ensures Added(events + [e], id) <==> Added(events, id) || (e.Add? && e.record.actionId == id)
  {
    var all := events + [e];
    if i :| 0 <= i < |events| && events[i].Add? && events[i].record.actionId == id {
      assert all[i] == events[i];
    }
    assert all[|events|] == e;
  }

  /** Over a whole execution, the table holds exactly the actions that were added: none is ever lost. */
  lemma {:induction false} RowsAreTheAdded(sha: Hash, leafHash: LeafHash, states: seq<State>, events: seq<Event>, id: Text)
    requires IsExecution(sha, leafHash, states, events)
    ensures id in states[|events|].rows <==> Added(events, id)
    decreases |events|
  {
    var n := |events|;
    if n > 0 {
      var earlier, before := states[..n], events[..n - 1];
      assert earlier[|before|] == states[n - 1] && events == before + [events[n - 1]];
      RowsAreTheAdded(sha, leafHash, earlier, before, id);
      AddedSnoc(before, events[n - 1], id);
    }
  }

  /** Every action that was added is, in every later state, exactly one of pending and anchored. */
  lemma AddedIsPendingOrAnchored(sha: Hash, leafHash: LeafHash, states: seq<State>, events: seq<Event>, id: Text)
    requires IsExecution(sha, leafHash, states, events) && CollisionFree(sha, states[|events|])
    requires Added(events, id)
    ensures
      var s := states[|events|];
      && id in s.rows
      && (id in Pending(s.rows) <==> !exists b: ArcString, i: nat :: AnchoredAs(sha, s, id, b, i))
  {
    RowsAreTheAdded(sha, leafHash, states, events, id);
    PendingOrAnchored(sha, leafHash, states, events, id);
  }

  /** The time of the last addition of `id`. */
  function LastAdded(events: seq<Event>, id: Text): Option<int> {
    if events == [] then None
    else
      var e := events[|events| - 1];
      if e.Add? && e.record.actionId == id then Some(e.now) else LastAdded(events[..|events| - 1], id)
  }

  /** Every row carries the time of its last addition, whatever was marked in between. */
  lemma {:induction false} RowsCarryTheirTime(sha: Hash, leafHash: LeafHash, states: seq<State>, events: seq<Event>, id: Text)
    requires IsExecution(sha, leafHash, states, events) && id in states[|events|].rows
    ensures LastAdded(events, id) == Some(states[|events|].rows[id].createdAt)
    decreases |events|
  {
    var n := |events|;
    var s, e := states[n - 1], events[n - 1];
    var earlier, before := states[..n], events[..n - 1];
    assert earlier[|before|] == s;
    if !(e.Add? && e.record.actionId == id) {
      TimeStep(sha, leafHash, s, e, states[n], id);
      RowsCarryTheirTime(sha, leafHash, earlier, before, id);
    }
  }

  lemma TimeStep(sha: Hash, leafHash: LeafHash, s: State, e: Event, s': State, id: Text)
    requires IsStep(sha, leafHash, s, e, s') && id in s'.rows && !(e.Add? && e.record.actionId == id)
    ensures id in s.rows && s'.rows[id].createdAt == s.rows[id].createdAt
  {
  }

  /** A batch lists its entries in the order in which they were last added. */
  lemma FlushFollowsAdditions(sha: Hash, leafHash: LeafHash, states: seq<State>, events: seq<Event>, batch: ReadyBatch,
                              p: nat, q: nat)
    requires IsExecution(sha, leafHash, states, events) && IsFlush(sha, states[|events|].rows, batch)
    requires p < q < |batch.entries|
    ensures
      var first, second := LastAdded(events, batch.entries[p].actionId), LastAdded(events, batch.entries[q].actionId);
      first.Some? && second.Some? && first.value <= second.value
  {
    var rows := states[|events|].rows;
    assert IsEntryOf(rows, batch.entries[p]) && IsEntryOf(rows, batch.entries[q]);
    RowsCarryTheirTime(sha, leafHash, states, events, batch.entries[p].actionId);
    RowsCarryTheirTime(sha, leafHash, states, events, batch.entries[q].actionId);
  }
}
