/**
 Anchoring a batch, as in batcher/anchor.py: flush, submit the root, mark.  Run without
 interruption it is a path of the anchoring machine.
 */
module BatchAnchor {
  import opened Basics
  import opened Arc4
  import opened ContractClient
  import opened BatchStores
  import opened AnchorContracts
  import opened Anchoring
  import opened AnchoringTheorems

  /** The state that the events lead to, if each of them is enabled when it happens. */
  ghost function After(sha: Hash, leafHash: LeafHash, s: State, events: seq<Event>): Option<State> {
    if events == [] then Some(s)
    else
      var n := |events| - 1;
      match After(sha, leafHash, s, events[..n])
      case None => None
      case Some(before) => if Enabled(sha, before, events[n]) then Some(Next(sha, leafHash, before, events[n])) else None
  }

  lemma AfterSnoc(sha: Hash, leafHash: LeafHash, s: State, events: seq<Event>, before: State, e: Event)
    requires After(sha, leafHash, s, events) == Some(before) && Enabled(sha, before, e)
    ensures After(sha, leafHash, s, events + [e]) == Some(Next(sha, leafHash, before, e))
  {
    assert (events + [e])[..|events|] == events;
  }

  /** The machine is in state `s`, where `batchId` is still unused. */
  ghost predicate Linked(s: State, rows: map<Text, LeafRow>, batches: map<Text, BatchRow>, roots: map<Bytes, AnchorRecord>,
                         batchId: Text) {
    && s.rows == rows && s.batches == batches && s.roots == roots
    && batchId != [] && Fits16(|batchId|) && batchId !in s.flushed && batchId !in s.flights
  }

  /** `events` lead from `s` to the given tables and roots, and no batch is left in flight. */
  ghost predicate LeadsTo(sha: Hash, leafHash: LeafHash, s: State, events: seq<Event>,
                          rows: map<Text, LeafRow>, batches: map<Text, BatchRow>, roots: map<Bytes, AnchorRecord>) {
    var after := After(sha, leafHash, s, events);
    && after.Some? && after.value.rows == rows && after.value.batches == batches && after.value.roots == roots
    && after.value.flights == s.flights && NoAdditions(events)
  }

  predicate NoAdditions(events: seq<Event>) {
    forall i :: 0 <= i < |events| ==> !events[i].Add?
  }

  // ----- Calls of the code within executions of the machine -----

  /** An execution followed by the events of a call is an execution again, so all its theorems apply. */
  lemma {:induction false} Extend(sha: Hash, leafHash: LeafHash, states: seq<State>, events: seq<Event>,
                                  more: seq<Event>, s: State)
    returns (states': seq<State>)
    requires IsExecution(sha, leafHash, states, events) && After(sha, leafHash, states[|events|], more) == Some(s)
    ensures IsExecution(sha, leafHash, states', events + more) && states'[|events + more|] == s && states <= states'
    decreases |more|
  {
    if more == [] {
      states' := states;
      assert events + more == events;
    } else {
      var n := |more| - 1;
      var before := After(sha, leafHash, states[|events|], more[..n]).value;
      var front := Extend(sha, leafHash, states, events, more[..n], before);
      states' := front + [s];
      assert events + more == (events + more[..n]) + [more[n]];
      StepExtends(sha, leafHash, front, events + more[..n], more[n], s);
    }
  }

  /**
   After a call of `FlushAndAnchor` that follows any execution without a conflicting re-add, every
   row with a batch id verifies, the ones it marked included.
   */
  lemma RowsVerifyAfterCall(sha: Hash, leafHash: LeafHash, states: seq<State>, events: seq<Event>, more: seq<Event>,
                            rows: map<Text, LeafRow>, batches: map<Text, BatchRow>, roots: map<Bytes, AnchorRecord>, id: Text)
    requires IsExecution(sha, leafHash, states, events) && AllSafe(leafHash, states, events)
    requires LeadsTo(sha, leafHash, states[|events|], more, rows, batches, roots)
    requires CollisionFree(sha, After(sha, leafHash, states[|events|], more).value)
    requires id in rows && rows[id].batchId.Some?
    ensures VerifyOutcome(sha, rows, roots, id) == Anchored(rows[id].batchId.value, true)
  {
    var s := After(sha, leafHash, states[|events|], more).value;
    var states' := Extend(sha, leafHash, states, events, more, s);
    forall i | 0 <= i < |events + more|
      ensures SafeAdd(leafHash, states'[i], (events + more)[i])
    {
      assert i < |events| ==> (events + more)[i] == events[i] && states'[i] == states[i];
      assert i >= |events| ==> (events + more)[i] == more[i - |events|];
    }
    AnchoredRecordsVerify(sha, leafHash, states', events + more, id);
  }

  lemma AnchoredPath(sha: Hash, leafHash: LeafHash, s: State, batch: ReadyBatch, txId: Text) returns (events: seq<Event>)
    requires Linked(s, s.rows, s.batches, s.roots, batch.batchId) && IsFlush(sha, s.rows, batch)
    requires RootEncodable(batch.batchId, |batch.leaves|, batch.timestamp)
    ensures LeadsTo(sha, leafHash, s, events,
                    Marked(sha, s.rows, batch, |batch.entries|),
                    s.batches[batch.batchId := BatchRow(batch.merkleRoot, |batch.leaves|, txId, batch.timestamp)],
                    Recorded(sha, s.roots, batch.batchId, batch.merkleRoot, |batch.leaves|, batch.timestamp))
  {
    var b: ArcString := batch.batchId;
    var before, confirmed := ConfirmedPath(sha, leafHash, s, batch);
    AfterSnoc(sha, leafHash, s, before, confirmed, Mark(b, txId));
    events := before + [Mark(b, txId)];
    assert s.flights[b := Flight(batch, true)] - {b} == s.flights;
  }

  lemma ConfirmedPath(sha: Hash, leafHash: LeafHash, s: State, batch: ReadyBatch)
    returns (events: seq<Event>, confirmed: State)
    requires Linked(s, s.rows, s.batches, s.roots, batch.batchId) && IsFlush(sha, s.rows, batch)
    requires RootEncodable(batch.batchId, |batch.leaves|, batch.timestamp)
    ensures After(sha, leafHash, s, events) == Some(confirmed) && NoAdditions(events)
    ensures confirmed == s.(
      roots := Recorded(sha, s.roots, batch.batchId, batch.merkleRoot, |batch.leaves|, batch.timestamp),
      flights := s.flights[batch.batchId := Flight(batch, true)],
      flushed := s.flushed[batch.batchId := batch.entries])
    ensures WellFormed(sha, batch.batchId, batch)
  {
    var b: ArcString := batch.batchId;
    var flush, confirm := Event.Flush(b, batch), Confirm(b);
    var flushed := Next(sha, leafHash, s, flush);
    AfterSnoc(sha, leafHash, s, [], s, flush);
    AfterSnoc(sha, leafHash, s, [] + [flush], flushed, confirm);
    events, confirmed := [] + [flush] + [confirm], Next(sha, leafHash, flushed, confirm);
    assert events == [flush, confirm];
    assert flushed.flights[b := flushed.flights[b].(confirmed := true)] == s.flights[b := Flight(batch, true)];
  }

  lemma LostPath(sha: Hash, leafHash: LeafHash, s: State, batch: ReadyBatch) returns (events: seq<Event>)
    requires Linked(s, s.rows, s.batches, s.roots, batch.batchId) && IsFlush(sha, s.rows, batch)
    requires RootEncodable(batch.batchId, |batch.leaves|, batch.timestamp)
    ensures LeadsTo(sha, leafHash, s, events, s.rows, s.batches,
                    Recorded(sha, s.roots, batch.batchId, batch.merkleRoot, |batch.leaves|, batch.timestamp))
  {
    var b: ArcString := batch.batchId;
    var flush, lose := Event.Flush(b, batch), Lose(b);
    var flushed := Next(sha, leafHash, s, flush);
    AfterSnoc(sha, leafHash, s, [], s, flush);
    AfterSnoc(sha, leafHash, s, [] + [flush], flushed, lose);
    events := [] + [flush] + [lose];
    assert events == [flush, lose];
  }

  /** `events` is what the call does to the anchoring machine when that is in state `s`. */
  method FlushAndAnchor(store: BatchStore, contract: AnchorContract, batchId: Text, timestamp: int, txId: Text,
                        net: Network, ghost s: State)
    returns (r: Result<ReadyBatch, AnchorError>, ghost events: seq<Event>)
    requires store.sha == contract.sha
    modifies store, contract
    ensures Pending(old(store.leaves)) == {} ==> r == Failure(EmptyStore)
    ensures r.Failure? ==> store.leaves == old(store.leaves) && store.batches == old(store.batches)
    ensures r.Success? ==>
      var batch := r.value;
      && batch.batchId == batchId && IsFlush(store.sha, old(store.leaves), batch)
      && RootEncodable(batchId, |batch.leaves|, timestamp)
      && contract.roots == Recorded(contract.sha, old(contract.roots), batchId, batch.merkleRoot, |batch.leaves|, timestamp)
      && store.leaves == Marked(store.sha, old(store.leaves), batch, |batch.entries|)
      && store.batches == old(store.batches)[batchId := BatchRow(batch.merkleRoot, |batch.leaves|, txId, timestamp)]
    ensures
      && Pending(old(store.leaves)) != {} && net.Delivered?
      && RootEncodable(batchId, |Pending(old(store.leaves))|, timestamp)
      ==> r.Success?
    ensures Linked(s, old(store.leaves), old(store.batches), old(contract.roots), batchId) ==>
      LeadsTo(store.sha, store.leafHash, s, events, store.leaves, store.batches, contract.roots)
  {
    events := [];
    var size := store.Size();
    if size == 0 {
      r := Failure(EmptyStore);
      return;
    }
    var flushed := store.Flush(batchId, timestamp);
    var batch := flushed.value;
    CountEntries(batch.entries);
    ghost var linked := Linked(s, store.leaves, store.batches, contract.roots, batchId);
    var submitted := SubmitAnchorRoot(contract, batchId, batch.merkleRoot, |batch.leaves|, timestamp, net);
    if submitted.Failure? {
      if linked && contract.roots != old(contract.roots) {
        events := LostPath(store.sha, store.leafHash, s, batch);
      }
      r := Failure(submitted.error);
      return;
    }
    store.MarkAnchored(batch, txId);
    if linked {
      events := AnchoredPath(store.sha, store.leafHash, s, batch, txId);
    }
    r := Success(batch);
  }

  lemma {:induction false} CountEntries(entries: seq<BatchEntry>)
    requires DistinctIds(entries)
    ensures |IdsOf(entries)| == |entries|
  {
    if entries != [] {
      var front, last := entries[..|entries| - 1], entries[|entries| - 1];
      CountEntries(front);
      IdsSnoc(front, last);
      assert entries == front + [last];
      assert last.actionId !in IdsOf(front);
    }
  }
}
