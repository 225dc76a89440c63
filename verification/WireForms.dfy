/**
 The bytes that others see, spelled out: numbers, strings, box names, result strings and the readings
 of malformed input.
 */
module WireForms {
  import opened Basics
  import opened Arc4
  import opened BoxKeys
  import opened ResultString

  /** The bytes of an ASCII text. */
  function Ascii(s: string): Text
    requires forall i :: 0 <= i < |s| ==> s[i] < 128 as char
  {
    seq(|s|, i requires 0 <= i < |s| => s[i] as int)
  }

  // ----- Numbers, strings and arrays -----

  /** Numbers have their most significant byte first. */
  lemma BigEndian(n: uint64)
    ensures
      var b := Word64(n);
      n == b[7] as int + 0x100 * b[6] as int + 0x1_0000 * b[5] as int + 0x100_0000 * b[4] as int
           + 0x1_0000_0000 * b[3] as int + 0x100_0000_0000 * b[2] as int + 0x1_0000_0000_0000 * b[1] as int
           + 0x100_0000_0000_0000 * b[0] as int
    ensures Fits16(n) ==> Word16(n)[1] as int + 0x100 * Word16(n)[0] as int == n
  {
    var high, low := n / 0x1_0000_0000, n % 0x1_0000_0000;
    FourBytes(high);
    FourBytes(low);
  }

  lemma FourBytes(n: uint32)
    ensures
      var b := Word32(n);
      n == b[3] as int + 0x100 * b[2] as int + 0x1_0000 * b[1] as int + 0x100_0000 * b[0] as int
  {
  }

  /** A string has its length in the first two bytes, and its text behind. */
  lemma StringForm(value: ArcString)
    ensures |StringBytes(value)| == 2 + |value| && StringBytes(value)[2..] == value
    ensures StringBytes(value)[1] as int + 0x100 * StringBytes(value)[0] as int == |value|
  {
  }

  /** Two strings, the second one empty: the count, two offsets, and the strings. */
  lemma StringArrayForm()
    ensures StringArrayFits([Ascii("a"), []])
    ensures StringArrayBytes([Ascii("a"), []]) == [0, 2, 0, 4, 0, 7, 0, 1, 0x61, 0, 0]
  {
    var values: seq<Text> := [Ascii("a"), []];
    assert TailSize(values, 0) == 0 && TailSize(values, 1) == 3;
    assert Offset(values, 0) == 4 && Offset(values, 1) == 7;
    JoinOfTwo(Heads(values));
    JoinOfTwo(Tails(values));
    assert Heads(values)[0] == [0, 4] && Heads(values)[1] == [0, 7];
    assert Tails(values)[0] == [0, 1, 0x61] && Tails(values)[1] == [0, 0];
  }

  lemma JoinOfTwo(parts: seq<Bytes>)
    requires |parts| == 2
    ensures Join(parts) == parts[0] + parts[1]
  {
    var front := parts[..1];
    assert front[..0] == [] && Join(front) == parts[0];
  }

  /** Bit 0 is the most significant one. */
  lemma BitMasks(b: bv8)
    ensures Bit(b, 0) == (b & 0x80 != 0) && Bit(b, 1) == (b & 0x40 != 0)
    ensures Bit(b, 2) == (b & 0x20 != 0) && Bit(b, 3) == (b & 0x10 != 0)
    ensures Bit(b, 4) == (b & 0x08 != 0) && Bit(b, 5) == (b & 0x04 != 0)
    ensures Bit(b, 6) == (b & 0x02 != 0) && Bit(b, 7) == (b & 0x01 != 0)
  {
  }

  /** Bit `i` of an array is in byte `i / 8` behind the count. */
  lemma BoolArrayForm(b: Bytes, i: nat)
    requires DecodeBoolArray(b).Some? && i < |DecodeBoolArray(b).value|
    ensures |DecodeBoolArray(b).value| == 256 * b[0] as int + b[1] as int && 2 + i / 8 < |b|
    ensures DecodeBoolArray(b).value[i] <==> Bit(b[2 + i / 8] as bv8, i % 8)
  {
    assert b[2..][i / 8] == b[2 + i / 8];
  }

  // ----- Box names -----

  /** The names of the boxes, as any reader of the chain computes them. */
  lemma BoxNames(sha: Hash, t: Tenant, index: uint64, field: ArcString, value: ArcString, batchId: ArcString)
    ensures
      var tenant := StringBytes(t.org) + StringBytes(t.agent);
      && BoxName(sha, CountBox(t)) == Ascii("rc:") + sha(tenant)
      && BoxName(sha, RuleBox(t, index)) == Ascii("r:") + sha(tenant + Word64(index))
      && BoxName(sha, SetBox(t, field, value)) == Ascii("s:") + sha(tenant + StringBytes(field) + StringBytes(value))
    ensures BoxName(sha, AnchorBox(batchId)) == Ascii("root:") + sha(StringBytes(batchId))
  {
    assert Ascii("rc:") == [0x72, 0x63, 0x3a] && Ascii("r:") == [0x72, 0x3a] && Ascii("s:") == [0x73, 0x3a];
    assert Ascii("root:") == [0x72, 0x6f, 0x6f, 0x74, 0x3a];
  }

  // ----- Result strings -----

  lemma TokenForms()
    ensures Token(Verdict(true, Onchain)) == Ascii("pass:onchain")
    ensures Token(Verdict(false, Onchain)) == Ascii("fail:onchain")
    ensures Token(Verdict(true, Attested)) == Ascii("pass:attested")
    ensures Token(Verdict(false, Attested)) == Ascii("fail:attested")
  {
  }

  /** Tokens are joined by bars, in the order of the rules. */
  lemma ResultForm(first: Verdict, second: Verdict)
    ensures Render([first]) == Token(first)
    ensures Render([first, second]) == Token(first) + Ascii("|") + Token(second)
  {
    var one, two := [first], [first, second];
    assert two[..1] == one && one[..0] == [];
  }

  lemma UnknownForms()
    ensures UnknownResult(0) == UnknownResult(1) == Ascii("fail:unknown")
    ensures UnknownResult(2) == Ascii("fail:unknown|fail:unknown")
  {
    assert UnknownResult(1) == Ascii("fail:unknown");
    assert UnknownResult(2) == UnknownResult(1) + [BAR] + Ascii("fail:unknown");
  }

  /** "pass" before the first colon is a pass; what follows is the layer, and "onchain" if nothing does. */
  lemma BreakdownForm(word: Text, layer: Text)
    requires COLON !in word
    ensures Breakdown(word + Ascii(":") + layer) == (word == Ascii("pass"), if layer == [] then Ascii("onchain") else layer)
    ensures Breakdown(word) == (word == Ascii("pass"), Ascii("onchain"))
  {
    var part := word + [COLON] + layer;
    assert part[|word|] == COLON && forall k :: 0 <= k < |word| ==> part[k] == word[k];
    assert Find(part, COLON) == |word| && part[..|word|] == word && part[|word| + 1..] == layer;
    assert Find(word, COLON) == |word| && word[..|word|] == word;
    assert Ascii(":") == [COLON] && Ascii("pass") == PASS && Ascii("onchain") == ONCHAIN;
  }

  // ----- Malformed input -----

  /** A log too short for the prefix, a length and a text reads as unknown. */
  lemma ShortLogs(log: Bytes, ruleCount: nat)
    ensures |log| <= 6 ==> ResultFromLog(Some(log), ruleCount) == UnknownResult(ruleCount)
    ensures |log| > 6 ==> ResultFromLog(Some(log), ruleCount) == DecodeArc4String(log[4..])
  {
  }

  predicate BeginsWithPass(part: Text) {
    |part| >= 4 && part[..4] == Ascii("pass")
  }

  /** Any result, well formed or not, counts as minted exactly if it is not empty and every part begins with "pass". */
  lemma MintedForm(result: Text)
    ensures AsaMinted(result) <==>
      result != [] && forall i :: 0 <= i < |Split(result)| ==> BeginsWithPass(Split(result)[i])
  {
    forall part: Text
      ensures StartsWith(part, PASS) <==> BeginsWithPass(part)
    {
      PassPrefix(part);
    }
  }

  lemma PassPrefix(part: Text)
    ensures StartsWith(part, PASS) <==> BeginsWithPass(part)
  {
    assert Ascii("pass") == PASS;
  }

  /** The client reads what there is of a string that is cut off, and nothing of one without a length. */
  lemma CutStrings(raw: Bytes)
    ensures |raw| < 2 ==> DecodeArc4String(raw) == []
    ensures |raw| >= 2 && 256 * raw[0] as int + raw[1] as int > |raw| - 2 ==> DecodeArc4String(raw) == raw[2..]
  {
  }

  /** An anchor box without an offset, or with one that points outside, is an error. */
  lemma BadAnchorBoxes(raw: Bytes)
    ensures |raw| < 2 ==> DecodeAnchorRoot(raw) == Failure(EmptyBox)
    ensures |raw| >= 2 && 256 * raw[0] as int + raw[1] as int + 2 > |raw| ==> DecodeAnchorRoot(raw) == Failure(MalformedBox)
  {
  }
}
