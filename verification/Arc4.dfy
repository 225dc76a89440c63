/**
 The ARC-4 byte encodings written by hand in algorand/contract_client_v2.py, and the decoders
 of ARC-4 (section "Encoding") that they are proved against.
 */
module Arc4 {
  import opened Basics

  /** `struct.error`: a length, offset or number does not fit its field. */
  datatype PackError = OutOfRange

  /** The text of an ARC-4 string: its length fits in two bytes. */
  type ArcString = s: Bytes | |s| < 0x1_0000

  predicate Fits16(n: int) { 0 <= n < 0x1_0000 }

  predicate Fits64(n: int) { 0 <= n < 0x1_0000_0000_0000_0000 }

  // ----- Concatenation -----

  /** `b"".join(parts)` */
  function Join(parts: seq<Bytes>): Bytes {
    if parts == [] then [] else Join(parts[..|parts| - 1]) + parts[|parts| - 1]
  }

  lemma {:induction false} JoinSplit(parts: seq<Bytes>, i: nat) returns (after: Bytes)
    requires i < |parts|
    ensures Join(parts) == Join(parts[..i]) + parts[i] + after
  {
    var n := |parts| - 1;
    if i == n {
      after := [];
    } else {
      var inner := JoinSplit(parts[..n], i);
      assert parts[..n][..i] == parts[..i];
      after := inner + parts[n];
    }
  }

  lemma {:induction false} JoinEqualSizes(parts: seq<Bytes>, width: nat)
    requires forall k :: 0 <= k < |parts| ==> |parts[k]| == width
    ensures |Join(parts)| == width * |parts|
  {
    if parts != [] {
      JoinEqualSizes(parts[..|parts| - 1], width);
    }
  }

  /** Parts of equal size are found at multiples of that size, whatever follows. */
  lemma JoinAt(parts: seq<Bytes>, width: nat, i: nat, rest: Bytes)
    requires i < |parts|
    requires forall k :: 0 <= k < |parts| ==> |parts[k]| == width
    ensures |Join(parts)| == width * |parts|
    ensures 0 <= width * i <= width * i + width <= |Join(parts)|
    ensures (Join(parts) + rest)[width * i..width * i + width] == parts[i]
  {
    JoinEqualSizes(parts, width);
    JoinEqualSizes(parts[..i], width);
    var after := JoinSplit(parts, i);
    var all := Join(parts) + rest;
    assert all == Join(parts[..i]) + parts[i] + (after + rest);
  }

  // ----- Strings -----

  function StringBytes(value: ArcString): (b: Bytes)
    ensures |b| == 2 + |value|
  {
    Word16(|value|) + value
  }

  function EncodeString(value: Text): Result<Bytes, PackError> {
    if Fits16(|value|) then Success(StringBytes(value)) else Failure(OutOfRange)
  }

  /** ARC-4: the string whose length prefix stands at `at`, if it lies within `body`. */
  function StringAt(body: Bytes, at: nat): Option<ArcString> {
    if at + 2 > |body| then None
    else
      var n := Read16(body[at..at + 2]);
      if at + 2 + n <= |body| then Some(body[at + 2..at + 2 + n]) else None
  }

  /** The client's decoder, which truncates instead of failing. */
  function DecodeArc4String(raw: Bytes): Text {
    if |raw| < 2 then []
    else
      var n := Read16(raw[..2]);
      if 2 + n <= |raw| then raw[2..2 + n] else raw[2..]
  }

  /** A string is recovered wherever its encoding stands. */
  lemma StringRoundTrip(before: Bytes, value: ArcString, after: Bytes)
    ensures StringAt(before + StringBytes(value) + after, |before|) == Some(value)
    ensures DecodeArc4String(StringBytes(value) + after) == value
  {
    var all, at := before + StringBytes(value) + after, |before|;
    var w: Bytes := Word16(|value|);
    Regroup(before, w, value, after);
    assert all == before + w + value + after;
    assert all[at..at + 2] == w;
    assert all[at + 2..at + 2 + |value|] == value;
    var raw := StringBytes(value) + after;
    assert raw == w + value + after;
    assert raw[..2] == w;
    assert raw[2..2 + |value|] == value;
  }

  /** Unique decodability: the first string of a concatenation is determined, and so is the rest. */
  lemma StringPrefixFree(x: ArcString, y: ArcString, restX: Bytes, restY: Bytes)
    requires StringBytes(x) + restX == StringBytes(y) + restY
    ensures x == y && restX == restY
  {
    StringRoundTrip([], x, restX);
    StringRoundTrip([], y, restY);
    var a, b := StringBytes(x) + restX, StringBytes(y) + restY;
    assert [] + a == a && [] + b == b;
    assert a[|StringBytes(x)|..] == restX && b[|StringBytes(y)|..] == restY;
  }

  // ----- string[] -----

  /** The encoded size of the first `n` strings. */
  function TailSize(values: seq<Text>, n: nat): nat
    requires n <= |values|
  {
    if n == 0 then 0 else TailSize(values, n - 1) + 2 + |values[n - 1]|
  }

  /** The offset of element `i`, counted from behind the element count. */
  function Offset(values: seq<Text>, i: nat): nat
    requires i <= |values|
  {
    2 * |values| + TailSize(values, i)
  }

  /** Every length and every offset fits in two bytes. */
  predicate StringArrayFits(values: seq<Text>) {
    Fits16(|values|) && forall i :: 0 <= i < |values| ==> Fits16(|values[i]|) && Fits16(Offset(values, i))
  }

  function Heads(values: seq<Text>): seq<Bytes>
    requires StringArrayFits(values)
  {
    seq(|values|, i requires 0 <= i < |values| => Word16(Offset(values, i)))
  }

  function Tails(values: seq<Text>): seq<Bytes>
    requires StringArrayFits(values)
  {
    seq(|values|, i requires 0 <= i < |values| => StringBytes(values[i]))
  }

  function StringArrayBytes(values: seq<Text>): Bytes
    requires StringArrayFits(values)
  {
    Word16(|values|) + Join(Heads(values)) + Join(Tails(values))
  }

  /** ARC-4: element `i` of a string array is read through its offset. */
  function StringElement(body: Bytes, i: nat): Option<ArcString> {
    if 2 * i + 2 > |body| then None else StringAt(body, Read16(body[2 * i..2 * i + 2]))
  }

  function DecodeStringArray(b: Bytes): Option<seq<ArcString>> {
    if |b| < 2 then None
    else
      var count, body := Read16(b[..2]), b[2..];
      if forall i :: 0 <= i < count ==> StringElement(body, i).Some? then
        Some(seq(count, i requires 0 <= i < count => StringElement(body, i).value))
      else None
  }

  lemma JoinNext(parts: seq<Bytes>, n: nat)
    requires n < |parts|
    ensures Join(parts[..n + 1]) == Join(parts[..n]) + parts[n]
  {
    var more := parts[..n + 1];
    assert more[..n] == parts[..n] && more[n] == parts[n];
  }

  lemma {:induction false} TailsSize(values: seq<Text>, tails: seq<Bytes>, n: nat)
    requires |tails| == |values| && n <= |values|
    requires forall k :: 0 <= k < |values| ==> |tails[k]| == 2 + |values[k]|
    ensures |Join(tails[..n])| == TailSize(values, n)
  {
    if n > 0 {
      TailsSize(values, tails, n - 1);
      JoinNext(tails, n - 1);
    }
  }

  lemma Regroup(a: Bytes, b: Bytes, c: Bytes, d: Bytes)
    ensures a + (b + c + d) == a + b + c + d
  {
  }

  lemma StringElementRoundTrip(values: seq<Text>, i: nat)
    requires StringArrayFits(values) && i < |values|
    ensures StringElement(Join(Heads(values)) + Join(Tails(values)), i) == Some(values[i])
  {
    var heads, tails := Join(Heads(values)), Join(Tails(values));
    var body := heads + tails;
    assert body[2 * i..2 * i + 2] == Word16(Offset(values, i)) by {
      JoinAt(Heads(values), 2, i, tails);
    }
    var after := JoinSplit(Tails(values), i);
    var before := heads + Join(Tails(values)[..i]);
    assert |before| == Offset(values, i) by {
      JoinEqualSizes(Heads(values), 2);
      TailsSize(values, Tails(values), i);
    }
    StringRoundTrip(before, values[i], after);
    Regroup(heads, Join(Tails(values)[..i]), StringBytes(values[i]), after);
  }

  lemma StringArrayRoundTrip(values: seq<Text>)
    requires StringArrayFits(values)
    ensures DecodeStringArray(StringArrayBytes(values)) == Some(values)
  {
    var n, b := |values|, StringArrayBytes(values);
    var body := Join(Heads(values)) + Join(Tails(values));
    assert b[..2] == Word16(n) && b[2..] == body;
    forall i | 0 <= i < n
      ensures StringElement(body, i) == Some(values[i])
    {
      StringElementRoundTrip(values, i);
    }
    assert DecodeStringArray(b).value == values;
  }

  method EncodeArrayString(values: seq<Text>) returns (r: Result<Bytes, PackError>)
    ensures r.Success? <==> StringArrayFits(values)
    ensures r.Success? ==> r.value == StringArrayBytes(values)
    ensures r.Success? ==> DecodeStringArray(r.value) == Some(values)
  {
    var count := |values|;
    var encoded: seq<Bytes> := [];
    for k := 0 to count
      invariant |encoded| == k
      invariant forall j :: 0 <= j < k ==> Fits16(|values[j]|) && encoded[j] == StringBytes(values[j])
    {
      var e := EncodeString(values[k]);
      if e.Failure? {
        return Failure(OutOfRange);
      }
      encoded := encoded + [e.value];
    }
    var headSize := count * 2;
    var offsets: seq<nat>, running := [], 0;
    for k := 0 to count
      invariant |offsets| == k && running == TailSize(values, k)
      invariant forall j :: 0 <= j < k ==> offsets[j] == Offset(values, j)
    {
      offsets := offsets + [headSize + running];
      running := running + |encoded[k]|;
    }
    if !Fits16(count) {
      return Failure(OutOfRange);
    }
    var heads: seq<Bytes> := [];
    for k := 0 to count
      invariant |heads| == k
      invariant forall j :: 0 <= j < k ==> Fits16(offsets[j]) && heads[j] == Word16(Offset(values, j))
    {
      if !Fits16(offsets[k]) {
        return Failure(OutOfRange);
      }
      heads := heads + [Word16(offsets[k])];
    }
    assert heads == Heads(values) && encoded == Tails(values);
    StringArrayRoundTrip(values);
    r := Success(Word16(count) + Join(heads) + Join(encoded));
  }

  // ----- uint64[] -----

  predicate Uint64ArrayFits(values: seq<int>) {
    Fits16(|values|) && forall i :: 0 <= i < |values| ==> Fits64(values[i])
  }

  function Words(values: seq<int>): seq<Bytes>
    requires Uint64ArrayFits(values)
  {
    seq(|values|, i requires 0 <= i < |values| => Word64(values[i]))
  }

  function Uint64ArrayBytes(values: seq<int>): Bytes
    requires Uint64ArrayFits(values)
  {
    Word16(|values|) + Join(Words(values))
  }

  function DecodeUint64Array(b: Bytes): Option<seq<uint64>> {
    if |b| < 2 then None
    else
      var count, body := Read16(b[..2]), b[2..];
      if |body| != 8 * count then None
      else Some(seq(count, i requires 0 <= i < count => Read64(body[8 * i..8 * i + 8])))
  }

  lemma Uint64ArrayRoundTrip(values: seq<int>)
    requires Uint64ArrayFits(values)
    ensures DecodeUint64Array(Uint64ArrayBytes(values)) == Some(values)
  {
    var n, b, words := |values|, Uint64ArrayBytes(values), Words(values);
    assert b[..2] == Word16(n) && b[2..] == Join(words);
    JoinEqualSizes(words, 8);
    forall i | 0 <= i < n
      ensures Read64(b[2..][8 * i..8 * i + 8]) == values[i]
    {
      JoinAt(words, 8, i, []);
      assert Join(words) + [] == Join(words);
    }
    assert DecodeUint64Array(b).value == values;
  }

  method EncodeArrayUint64(values: seq<int>) returns (r: Result<Bytes, PackError>)
    ensures r.Success? <==> Uint64ArrayFits(values)
    ensures r.Success? ==> r.value == Uint64ArrayBytes(values)
    ensures r.Success? ==> DecodeUint64Array(r.value) == Some(values)
  {
    if !Fits16(|values|) {
      return Failure(OutOfRange);
    }
    var words: seq<Bytes> := [];
    for k := 0 to |values|
      invariant |words| == k
      invariant forall j :: 0 <= j < k ==> Fits64(values[j]) && words[j] == Word64(values[j])
    {
      if !Fits64(values[k]) {
        return Failure(OutOfRange);
      }
      words := words + [Word64(values[k])];
    }
    assert words == Words(values);
    Uint64ArrayRoundTrip(values);
    r := Success(Word16(|values|) + Join(words));
  }

  // ----- bool[] -----

  /** Bit `k` of a byte, counted from the most significant bit. */
  predicate Bit(b: bv8, k: nat)
    requires k < 8
  {
    (b >> (7 - k)) & 1 == 1
  }

  lemma SetBit(b: bv8, k: nat, j: nat)
    requires k < 8 && j < 8
    ensures Bit(b | (1 << (7 - k)), j) <==> j == k || Bit(b, j)
  {
  }

  function ByteCount(bits: nat): nat {
    (bits + 7) / 8
  }

  function BitOf(packed: Bytes, i: nat): bool
    requires i < 8 * |packed|
  {
    Bit(packed[i / 8] as bv8, i % 8)
  }

  /** ARC-4: bits packed eight to a byte, most significant first, the unused bits zero. */
  function DecodeBoolArray(b: Bytes): Option<seq<bool>> {
    if |b| < 2 then None
    else
      var count, packed := Read16(b[..2]), b[2..];
      if |packed| != ByteCount(count) || (exists i :: count <= i < 8 * |packed| && BitOf(packed, i)) then None
      else Some(seq(count, i requires 0 <= i < count => BitOf(packed, i)))
  }

  lemma PackedDecodes(values: seq<bool>, packed: Bytes)
    requires Fits16(|values|) && |packed| == ByteCount(|values|)
    requires forall i :: 0 <= i < 8 * |packed| ==> (BitOf(packed, i) <==> i < |values| && values[i])
    ensures DecodeBoolArray(Word16(|values|) + packed) == Some(values)
  {
    var b := Word16(|values|) + packed;
    assert b[..2] == Word16(|values|) && b[2..] == packed;
    var d := DecodeBoolArray(b);
    assert d.Some? && d.value == values;
  }

  method EncodeArrayBool(values: seq<bool>) returns (r: Result<Bytes, PackError>)
    ensures r.Success? <==> Fits16(|values|)
    ensures r.Success? ==> |r.value| == 2 + ByteCount(|values|)
    ensures r.Success? ==> DecodeBoolArray(r.value) == Some(values)
  {
    var count := |values|;
    var packed := new bv8[ByteCount(count)](_ => 0);
    for i := 0 to count
      invariant forall j :: 0 <= j < 8 * packed.Length ==>
        (Bit(packed[j / 8], j % 8) <==> j < i && values[j])
    {
      if values[i] {
        forall j | 0 <= j < 8 {
          SetBit(packed[i / 8], i % 8, j);
        }
        packed[i / 8] := packed[i / 8] | (1 << (7 - (i % 8)));
      }
    }
    if !Fits16(count) {
      return Failure(OutOfRange);
    }
    var bytes: Bytes := seq(packed.Length, i requires 0 <= i < packed.Length reads packed => packed[i] as int);
    forall i | 0 <= i < 8 * |bytes|
      ensures BitOf(bytes, i) <==> i < count && values[i]
    {
      assert bytes[i / 8] as bv8 == packed[i / 8];
    }
    PackedDecodes(values, bytes);
    r := Success(Word16(count) + bytes);
  }

  // ----- Structs -----

  /** The `PolicyRule` struct of the policy contract. */
  datatype PolicyRule = PolicyRule(
    mode: uint64, operator: uint64, valueNum: uint64, field: ArcString, commitment: ArcString)

  /** Head: three numbers and two offsets, 28 bytes; tail: the two strings. */
  function BuildPolicyRule(mode: int, operator: int, valueNum: int, field: Text, commitment: Text)
    : (r: Result<Bytes, PackError>)
    ensures r.Success? <==>
      && Fits64(mode) && Fits64(operator) && Fits64(valueNum)
      && Fits16(|commitment|) && Fits16(28 + 2 + |field|)
    ensures r.Success? ==>
      DecodePolicyRule(r.value) == Some(PolicyRule(mode, operator, valueNum, field, commitment))
  {
    if !(Fits16(|field|) && Fits16(|commitment|)) then Failure(OutOfRange)
    else
      var fieldBytes, commitmentBytes := StringBytes(field), StringBytes(commitment);
      var headSize := 28;
      if !(Fits64(mode) && Fits64(operator) && Fits64(valueNum) && Fits16(headSize + |fieldBytes|)) then
        Failure(OutOfRange)
      else
        PolicyRuleRoundTrip(PolicyRule(mode, operator, valueNum, field, commitment));
        var head :=
          Word64(mode) + Word64(operator) + Word64(valueNum) + Word16(headSize) + Word16(headSize + |fieldBytes|);
        Success(head + fieldBytes + commitmentBytes)
  }

  function DecodePolicyRule(b: Bytes): Option<PolicyRule> {
    if |b| < 28 then None
    else
      var field, commitment := StringAt(b, Read16(b[24..26])), StringAt(b, Read16(b[26..28]));
      if field.None? || commitment.None? then None
      else Some(PolicyRule(Read64(b[..8]), Read64(b[8..16]), Read64(b[16..24]), field.value, commitment.value))
  }

  lemma HeadFields(m: Bytes, o: Bytes, v: Bytes, p: Bytes, q: Bytes, tail: Bytes)
    requires |m| == |o| == |v| == 8 && |p| == |q| == 2
    ensures
      var b := m + o + v + p + q + tail;
      b[..8] == m && b[8..16] == o && b[16..24] == v && b[24..26] == p && b[26..28] == q
  {
  }

  function PolicyRuleHead(rule: PolicyRule): (head: Bytes)
    requires Fits16(30 + |rule.field|)
    ensures |head| == 28
  {
    Word64(rule.mode) + Word64(rule.operator) + Word64(rule.valueNum) + Word16(28) + Word16(30 + |rule.field|)
  }

  lemma PolicyRuleRoundTrip(rule: PolicyRule)
    requires Fits16(30 + |rule.field|)
    ensures DecodePolicyRule(PolicyRuleHead(rule) + StringBytes(rule.field) + StringBytes(rule.commitment)) == Some(rule)
  {
    var head, f, c := PolicyRuleHead(rule), StringBytes(rule.field), StringBytes(rule.commitment);
    var b := head + f + c;
    assert StringAt(b, 28) == Some(rule.field) by {
      StringRoundTrip(head, rule.field, c);
    }
    assert StringAt(b, 30 + |rule.field|) == Some(rule.commitment) by {
      StringRoundTrip(head + f, rule.commitment, []);
      assert b + [] == b;
    }
    var m, o, v := Word64(rule.mode), Word64(rule.operator), Word64(rule.valueNum);
    var p, q := Word16(28), Word16(30 + |rule.field|);
    assert b == m + o + v + p + q + (f + c);
    HeadFields(m, o, v, p, q, f + c);
  }

  /** The `AnchorRecord` struct of the anchor contract. */
  datatype AnchorRecord = AnchorRecord(merkleRoot: ArcString, leafCount: uint64, timestamp: uint64, batchId: ArcString)

  /** ARC-4 fixes the bytes in the box: an offset, two numbers, an offset, then the two strings. */
  function AnchorRecordBytes(rec: AnchorRecord): Bytes
    requires Fits16(22 + |rec.merkleRoot|)
  {
    Word16(20) + Word64(rec.leafCount) + Word64(rec.timestamp) + Word16(22 + |rec.merkleRoot|)
    + StringBytes(rec.merkleRoot) + StringBytes(rec.batchId)
  }

  datatype BoxError = EmptyBox | MalformedBox

  /** The client's reading of the first field of an anchor box. */
  function DecodeAnchorRoot(raw: Bytes): Result<Text, BoxError> {
    if |raw| < 2 then Failure(EmptyBox)
    else
      var offset := Read16(raw[..2]);
      if offset + 2 > |raw| then Failure(MalformedBox) else Success(DecodeArc4String(raw[offset..]))
  }

  lemma AnchorRootRoundTrip(rec: AnchorRecord)
    requires Fits16(22 + |rec.merkleRoot|)
    ensures DecodeAnchorRoot(AnchorRecordBytes(rec)) == Success(rec.merkleRoot)
  {
    var m, n, t, q := Word16(20), Word64(rec.leafCount), Word64(rec.timestamp), Word16(22 + |rec.merkleRoot|);
    var head, root, id := m + n + t + q, StringBytes(rec.merkleRoot), StringBytes(rec.batchId);
    var raw := head + root + id;
    assert raw == AnchorRecordBytes(rec);
    assert raw[..2] == m;
    assert raw[20..] == root + id;
    StringRoundTrip([], rec.merkleRoot, id);
  }
}
