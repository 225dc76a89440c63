/**
 The anchor contract of contracts/anchor_contract.py with its client, and the verification of a
 record against it (api/main.py).
 */
module AnchorContracts {
  import opened Basics
  import opened Arc4
  import opened BoxKeys
  import opened ContractClient
  import opened Merkle
  import opened BatchStores

  datatype AnchorError = NotCreator | NoSuchRoot | CannotEncode | NoConfirmation | EmptyStore | Unreadable(cause: BoxError)

  class AnchorContract {
    const sha: Hash
    var roots: map<Bytes, AnchorRecord>

    constructor (sha: Hash)
      ensures this.sha == sha && roots == map[]
    {
      this.sha := sha;
      roots := map[];
    }

    /** Overwrites whatever is stored for the batch id. */
    method SubmitRoot(fromCreator: bool, batchId: ArcString, merkleRoot: ArcString, leafCount: uint64, timestamp: uint64)
      returns (r: Result<(), AnchorError>)
      modifies this
      ensures r.Success? <==> fromCreator
      ensures roots == if r.Success?
        then old(roots)[BoxName(sha, AnchorBox(batchId)) := AnchorRecord(merkleRoot, leafCount, timestamp, batchId)]
        else old(roots)
    {
      if !fromCreator {
        return Failure(NotCreator);
      }
      roots := roots[BoxName(sha, AnchorBox(batchId)) := AnchorRecord(merkleRoot, leafCount, timestamp, batchId)];
      r := Success(());
    }

    method GetRoot(batchId: ArcString) returns (r: Result<ArcString, AnchorError>)
      ensures r == RootOnChain(sha, roots, batchId)
    {
      var boxKey := BoxName(sha, AnchorBox(batchId));
      if boxKey !in roots {
        return Failure(NoSuchRoot);
      }
      r := Success(roots[boxKey].merkleRoot);
    }
  }

  function RootOnChain(sha: Hash, roots: map<Bytes, AnchorRecord>, batchId: ArcString): Result<ArcString, AnchorError> {
    var name := BoxName(sha, AnchorBox(batchId));
    if name in roots then Success(roots[name].merkleRoot) else Failure(NoSuchRoot)
  }

  // ----- The client -----

  predicate RootEncodable(batchId: Text, leafCount: nat, timestamp: int) {
    Fits16(|batchId|) && Fits64(leafCount) && Fits64(timestamp)
  }

  function Recorded(sha: Hash, roots: map<Bytes, AnchorRecord>, batchId: ArcString, merkleRoot: Digest,
                    leafCount: uint64, timestamp: uint64): map<Bytes, AnchorRecord> {
    roots[BoxName(sha, AnchorBox(batchId)) := AnchorRecord(merkleRoot, leafCount, timestamp, batchId)]
  }

  /** A root that was submitted is read back, and no other batch's root changes, or two batch ids shown here collide. */
  lemma RootReadBack(sha: Hash, roots: map<Bytes, AnchorRecord>, b: ArcString, merkleRoot: Digest,
                     leafCount: uint64, timestamp: uint64, c: ArcString)
    ensures
      var roots' := Recorded(sha, roots, b, merkleRoot, leafCount, timestamp);
      && RootOnChain(sha, roots', b) == Success(merkleRoot)
      && (b != c ==> RootOnChain(sha, roots', c) == RootOnChain(sha, roots, c)
                     || Collide(sha, Preimage(AnchorBox(b)), Preimage(AnchorBox(c))))
  {
    if b != c {
      NamesDistinct(sha, AnchorBox(b), AnchorBox(c));
    }
  }

  method SubmitAnchorRoot(contract: AnchorContract, batchId: Text, merkleRoot: Digest, leafCount: nat, timestamp: int,
                          net: Network)
    returns (r: Result<(), AnchorError>)
    modifies contract
    ensures r.Success? <==> net.Delivered? && RootEncodable(batchId, leafCount, timestamp)
    ensures r.Success? ==>
      contract.roots == Recorded(contract.sha, old(contract.roots), batchId, merkleRoot, leafCount, timestamp)
    ensures r.Failure? && contract.roots != old(contract.roots) ==>
      && net.Unconfirmed? && RootEncodable(batchId, leafCount, timestamp)
      && contract.roots == Recorded(contract.sha, old(contract.roots), batchId, merkleRoot, leafCount, timestamp)
  {
    if !RootEncodable(batchId, leafCount, timestamp) {
      return Failure(AnchorError.CannotEncode);
    }
    if net.Dropped? {
      return Failure(AnchorError.NoConfirmation);
    }
    var submitted := contract.SubmitRoot(true, batchId, merkleRoot, leafCount, timestamp);
    if submitted.Failure? || net.Unconfirmed? {
      return Failure(AnchorError.NoConfirmation);
    }
    r := Success(());
  }

  /** Reads the raw bytes of the box and decodes their first field. */
  method GetAnchorRoot(contract: AnchorContract, batchId: Text) returns (r: Result<Text, AnchorError>)
    requires forall name :: name in contract.roots ==> Fits16(22 + |contract.roots[name].merkleRoot|)
    ensures Fits16(|batchId|) ==> r == RootOnChain(contract.sha, contract.roots, batchId)
    ensures !Fits16(|batchId|) ==> r.Failure?
  {
    if !Fits16(|batchId|) {
      return Failure(AnchorError.CannotEncode);
    }
    var name := BoxName(contract.sha, AnchorBox(batchId));
    if name !in contract.roots {
      return Failure(NoSuchRoot);
    }
    var raw := AnchorRecordBytes(contract.roots[name]);
    AnchorRootRoundTrip(contract.roots[name]);
    var decoded := DecodeAnchorRoot(raw);
    match decoded
    case Success(root) => r := Success(root);
    case Failure(cause) => r := Failure(Unreadable(cause));
  }

  // ----- Verifying a record -----

  datatype VerifyResult = NotFound | AnchorPending | RootUnavailable | Anchored(batchId: Text, proofValid: bool)

  function VerifyOutcome(sha: Hash, rows: map<Text, LeafRow>, roots: map<Bytes, AnchorRecord>, actionId: Text): VerifyResult {
    if actionId !in rows then NotFound
    else
      var row := rows[actionId];
      if row.batchId.None? || row.batchId.value == [] || row.proof.None? then AnchorPending
      else
        var batchId := row.batchId.value;
        if !Fits16(|batchId|) then RootUnavailable
        else
          match RootOnChain(sha, roots, batchId)
          case Failure(_) => RootUnavailable
          case Success(root) => Anchored(batchId, Fold(sha, row.leaf, row.proof.value) == root)
  }

  method Verify(store: BatchStore, contract: AnchorContract, actionId: Text) returns (r: VerifyResult)
    requires store.sha == contract.sha
    requires forall name :: name in contract.roots ==> Fits16(22 + |contract.roots[name].merkleRoot|)
    ensures r == VerifyOutcome(store.sha, store.leaves, contract.roots, actionId)
    ensures r == NotFound <==> actionId !in store.leaves
    ensures r == AnchorPending <==>
      actionId in store.leaves && (var row := store.leaves[actionId]; row.batchId.None? || row.batchId.value == [] || row.proof.None?)
    ensures r.Anchored? ==>
      && actionId in store.leaves && store.leaves[actionId].batchId == Some(r.batchId) && r.batchId != []
      && store.leaves[actionId].proof.Some? && Fits16(|r.batchId|)
      && BoxName(contract.sha, AnchorBox(r.batchId)) in contract.roots
      && (r.proofValid <==>
            Fold(store.sha, store.leaves[actionId].leaf, store.leaves[actionId].proof.value)
            == contract.roots[BoxName(contract.sha, AnchorBox(r.batchId))].merkleRoot)
    ensures r == RootUnavailable <==>
      && actionId in store.leaves
      && var row := store.leaves[actionId];
         && row.batchId.Some? && row.batchId.value != [] && row.proof.Some?
         && (!Fits16(|row.batchId.value|) || BoxName(contract.sha, AnchorBox(row.batchId.value)) !in contract.roots)
  {
    var leaf := store.GetLeaf(actionId);
    if leaf.None? {
      return NotFound;
    }
    var row := leaf.value;
    if row.batchId.None? || row.batchId.value == [] || row.proof.None? {
      return AnchorPending;
    }
    var root := GetAnchorRoot(contract, row.batchId.value);
    if root.Failure? {
      return RootUnavailable;
    }
    var valid := VerifyProof(store.sha, row.leaf, row.proof.value, root.value);
    r := Anchored(row.batchId.value, valid);
  }
}
