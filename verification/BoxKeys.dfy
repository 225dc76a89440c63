/**
 The names of the contracts' boxes: a prefix and the digest of ARC-4-encoded parts.
 */
module BoxKeys {
  import opened Basics
  import opened Arc4

  /** An organisation and one of its agents: the namespace of a policy set. */
  datatype Tenant = Tenant(org: ArcString, agent: ArcString)

  datatype Box =
    | CountBox(tenant: Tenant)
    | RuleBox(tenant: Tenant, index: uint64)
    | SetBox(tenant: Tenant, field: ArcString, value: ArcString)
    | AnchorBox(batchId: ArcString)

  /** "rc:", "r:", "s:" and "root:". */
  function Prefix(box: Box): Bytes {
    match box
    case CountBox(_) => [0x72, 0x63, 0x3a]
    case RuleBox(_, _) => [0x72, 0x3a]
    case SetBox(_, _, _) => [0x73, 0x3a]
    case AnchorBox(_) => [0x72, 0x6f, 0x6f, 0x74, 0x3a]
  }

  function TenantBytes(t: Tenant): Bytes {
    StringBytes(t.org) + StringBytes(t.agent)
  }

  /** The bytes whose digest names the box. */
  function Preimage(box: Box): Bytes {
    match box
    case CountBox(t) => TenantBytes(t)
    case RuleBox(t, index) => TenantBytes(t) + Word64(index)
    case SetBox(t, field, value) => TenantBytes(t) + StringBytes(field) + StringBytes(value)
    case AnchorBox(batchId) => StringBytes(batchId)
  }

  function BoxName(sha: Hash, box: Box): Bytes {
    Prefix(box) + sha(Preimage(box))
  }

  predicate SameKind(x: Box, y: Box) {
    Prefix(x) == Prefix(y)
  }

  /** The length prefixes make the concatenation uniquely decodable: the parts cannot be shifted. */
  lemma PreimageInjective(x: Box, y: Box)
    requires SameKind(x, y) && Preimage(x) == Preimage(y)
    ensures x == y
  {
    match x
    case CountBox(t) =>
      assert Preimage(x) == Preimage(x) + [] && Preimage(y) == Preimage(y) + [];
      TenantDecodable(t, y.tenant, [], []);
    case RuleBox(t, index) =>
      TenantDecodable(t, y.tenant, Word64(index), Word64(y.index));
    case SetBox(t, field, value) =>
      var fx, fy, vx, vy := StringBytes(field), StringBytes(y.field), StringBytes(value), StringBytes(y.value);
      Regroup3(TenantBytes(t), fx, vx);
      Regroup3(TenantBytes(y.tenant), fy, vy);
      TenantDecodable(t, y.tenant, fx + vx, fy + vy);
      StringPrefixFree(field, y.field, vx, vy);
      assert vx == vx + [] && vy == vy + [];
      StringPrefixFree(value, y.value, [], []);
    case AnchorBox(batchId) =>
      assert Preimage(x) == StringBytes(batchId) + [] && Preimage(y) == StringBytes(y.batchId) + [];
      StringPrefixFree(batchId, y.batchId, [], []);
  }

  lemma Regroup3(a: Bytes, b: Bytes, c: Bytes)
    ensures a + b + c == a + (b + c)
  {
  }

  lemma TenantDecodable(t: Tenant, t': Tenant, rest: Bytes, rest': Bytes)
    requires TenantBytes(t) + rest == TenantBytes(t') + rest'
    ensures t == t' && rest == rest'
  {
    Regroup3(StringBytes(t.org), StringBytes(t.agent), rest);
    Regroup3(StringBytes(t'.org), StringBytes(t'.agent), rest');
    StringPrefixFree(t.org, t'.org, StringBytes(t.agent) + rest, StringBytes(t'.agent) + rest');
    StringPrefixFree(t.agent, t'.agent, rest, rest');
  }

  /** Different boxes have different names, or the two preimages shown here collide. */
  lemma NamesDistinct(sha: Hash, x: Box, y: Box)
    requires x != y
    ensures BoxName(sha, x) != BoxName(sha, y) || (SameKind(x, y) && Collide(sha, Preimage(x), Preimage(y)))
  {
    var p, q := Prefix(x), Prefix(y);
    if BoxName(sha, x) == BoxName(sha, y) {
      assert |p| == |q|;
      assert BoxName(sha, x)[..|p|] == p && BoxName(sha, y)[..|q|] == q;
      assert BoxName(sha, x)[|p|..] == sha(Preimage(x)) && BoxName(sha, y)[|q|..] == sha(Preimage(y));
      if Preimage(x) == Preimage(y) {
        PreimageInjective(x, y);
      }
    }
  }

  /** The boxes in `boxes` have pairwise different names. */
  ghost predicate NamesApart(sha: Hash, boxes: iset<Box>) {
    forall x, y :: x in boxes && y in boxes && BoxName(sha, x) == BoxName(sha, y) ==> x == y
  }

  /** Names are apart as soon as the hash has no collision among the preimages of the boxes. */
  lemma NamesApartIfInjective(sha: Hash, boxes: iset<Box>)
    requires forall x, y :: x in boxes && y in boxes ==> !Collide(sha, Preimage(x), Preimage(y))
    ensures NamesApart(sha, boxes)
  {
    forall x, y | x in boxes && y in boxes && BoxName(sha, x) == BoxName(sha, y)
      ensures x == y
    {
      if x != y {
        NamesDistinct(sha, x, y);
      }
    }
  }
}
