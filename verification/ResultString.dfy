/**
 The per-rule result string, from the contract's loop through the transaction log to the
 client and the dashboard.
 */
module ResultString {
  import opened Basics
  import opened Arc4

  datatype Layer = Onchain | Attested

  datatype Verdict = Verdict(passed: bool, layer: Layer)

  const BAR: byte := 0x7c
  const COLON: byte := 0x3a
  const PASS: Text := [0x70, 0x61, 0x73, 0x73]
  const FAIL: Text := [0x66, 0x61, 0x69, 0x6c]
  const ONCHAIN: Text := [0x6f, 0x6e, 0x63, 0x68, 0x61, 0x69, 0x6e]
  const ATTESTED: Text := [0x61, 0x74, 0x74, 0x65, 0x73, 0x74, 0x65, 0x64]

  function LayerName(layer: Layer): Text {
    if layer.Onchain? then ONCHAIN else ATTESTED
  }

  /** "pass:onchain", "fail:attested" and so on. */
  function Token(v: Verdict): Text {
    (if v.passed then PASS else FAIL) + [COLON] + LayerName(v.layer)
  }

  function Render(verdicts: seq<Verdict>): Text {
    if verdicts == [] then []
    else
      var front, last := verdicts[..|verdicts| - 1], verdicts[|verdicts| - 1];
      if front == [] then Token(last) else Render(front) + [BAR] + Token(last)
  }

  predicate AllPassed(verdicts: seq<Verdict>) {
    forall i :: 0 <= i < |verdicts| ==> verdicts[i].passed
  }

  lemma RenderSnoc(verdicts: seq<Verdict>, v: Verdict)
    ensures Render(verdicts + [v])
         == if verdicts == [] then Token(v)
            else Render(verdicts) + [BAR] + ((if v.passed then PASS else FAIL) + [COLON]) + LayerName(v.layer)
    ensures AllPassed(verdicts + [v]) <==> AllPassed(verdicts) && v.passed
  {
    assert forall i :: 0 <= i < |verdicts| ==> (verdicts + [v])[i] == verdicts[i];
    assert (verdicts + [v])[|verdicts|] == v;
    assert (verdicts + [v])[..|verdicts|] == verdicts;
    if verdicts != [] {
      var r, w, l := Render(verdicts) + [BAR], (if v.passed then PASS else FAIL) + [COLON], LayerName(v.layer);
      assert r + (w + l) == r + w + l;
    }
  }

  // ----- The readers -----

  /** The position of the first `c`, or the length. */
  function Find(s: Text, c: byte): (i: nat)
    ensures i <= |s| && (i < |s| ==> s[i] == c)
    ensures forall k :: 0 <= k < i ==> s[k] != c
  {
    if s == [] || s[0] == c then 0 else 1 + Find(s[1..], c)
  }

  /** `s.split("|")` */
  function Split(s: Text): (parts: seq<Text>)
    ensures parts != []
    decreases |s|
  {
    var i := Find(s, BAR);
    if i == |s| then [s] else [s[..i]] + Split(s[i + 1..])
  }

  predicate StartsWith(s: Text, prefix: Text) {
    prefix <= s
  }

  predicate AsaMinted(result: Text) {
    result != [] && forall i :: 0 <= i < |Split(result)| ==> StartsWith(Split(result)[i], PASS)
  }

  /** What the client reads from the last log entry of the confirmed call. */
  function ResultFromLog(log: Option<Bytes>, ruleCount: nat): Text {
    if log.Some? && |log.value| > 6 then DecodeArc4String(log.value[4..])
    else UnknownResult(ruleCount)
  }

  /** "fail:unknown" for each rule, and at least once. */
  function UnknownResult(ruleCount: nat): Text {
    var unknown := FAIL + [COLON, 0x75, 0x6e, 0x6b, 0x6e, 0x6f, 0x77, 0x6e];
    if ruleCount <= 1 then unknown else UnknownResult(ruleCount - 1) + [BAR] + unknown
  }

  /** One entry of the policy breakdown: `part.partition(":")`, with "onchain" for a missing layer. */
  function Breakdown(part: Text): (bool, Text) {
    var i := Find(part, COLON);
    var layer := if i == |part| then [] else part[i + 1..];
    (part[..i] == PASS, if layer == [] then ONCHAIN else layer)
  }

  // ----- Round trip -----

  lemma SplitFirst(s: Text, head: Text, tail: Text)
    requires s == head + [BAR] + tail && BAR !in head
    ensures Split(s) == [head] + Split(tail)
  {
    var i := |head|;
    assert s[..i] == head && s[i] == BAR && s[i + 1..] == tail;
    assert Find(s, BAR) == i by {
      assert forall k :: 0 <= k < i ==> s[k] == head[k];
    }
  }

  lemma Regroup(head: Text, tail: Text, token: Text)
    ensures head + [BAR] + tail + [BAR] + token == head + [BAR] + (tail + [BAR] + token)
  {
  }

  /** Splitting undoes the addition of one more token. */
  lemma {:induction false} SplitSnoc(s: Text, token: Text, all: Text)
    requires all == s + [BAR] + token && BAR !in token
    ensures Split(all) == Split(s) + [token]
    decreases |s|
  {
    var i := Find(s, BAR);
    if i == |s| {
      assert Find(token, BAR) == |token|;
      SplitFirst(all, s, token);
    } else {
      var head, tail := s[..i], s[i + 1..];
      var rest := tail + [BAR] + token;
      assert s == head + [BAR] + tail;
      Regroup(head, tail, token);
      SplitSnoc(tail, token, rest);
      SplitFirst(s, head, tail);
      SplitFirst(all, head, rest);
    }
  }

  /** The parts with a bar between each two. */
  function JoinedByBars(parts: seq<Text>): Text {
    if parts == [] then []
    else if |parts| == 1 then parts[0]
    else parts[0] + [BAR] + JoinedByBars(parts[1..])
  }

  /** Any text, well formed or not: its parts hold no bar, and joined by bars they are the text. */
  lemma {:induction false} SplitJoins(s: Text)
    ensures JoinedByBars(Split(s)) == s
    ensures forall i :: 0 <= i < |Split(s)| ==> BAR !in Split(s)[i]
    decreases |s|
  {
    var i := Find(s, BAR);
    if i < |s| {
      var head, tail := s[..i], s[i + 1..];
      SplitJoins(tail);
      assert s == head + [BAR] + tail;
      SplitFirst(s, head, tail);
      assert Split(s)[1..] == Split(tail);
    }
  }

  lemma TokenShape(v: Verdict)
    ensures BAR !in Token(v) && 12 <= |Token(v)| <= 13
    ensures StartsWith(Token(v), PASS) <==> v.passed
    ensures Breakdown(Token(v)) == (v.passed, LayerName(v.layer))
  {
    var t := Token(v);
    var word := if v.passed then PASS else FAIL;
    assert t[..4] == word && t[4] == COLON;
    assert forall k :: 0 <= k < 4 ==> t[k] == word[k] && word[k] != COLON;
    assert Find(t, COLON) == 4;
    assert t[5..] == LayerName(v.layer);
    assert FAIL[0] != PASS[0];
  }

  /** The string splits back into exactly the tokens it was built from. */
  lemma {:induction false} SplitRender(verdicts: seq<Verdict>)
    requires verdicts != []
    ensures 0 < |Render(verdicts)| <= 14 * |verdicts|
    ensures |Split(Render(verdicts))| == |verdicts|
    ensures forall i :: 0 <= i < |verdicts| ==> Split(Render(verdicts))[i] == Token(verdicts[i])
  {
    var front, last := verdicts[..|verdicts| - 1], verdicts[|verdicts| - 1];
    TokenShape(last);
    if front == [] {
      assert Find(Token(last), BAR) == |Token(last)|;
    } else {
      SplitRender(front);
      SplitSnoc(Render(front), Token(last), Render(verdicts));
    }
  }

  /**
   From the contract's verdicts to the log and back: the client reads the same string, its
   minted flag is the contract's all-pass flag, and the breakdown recovers every verdict.
   */
  lemma ResultRoundTrip(verdicts: seq<Verdict>, logPrefix: Bytes, ruleCount: nat)
    requires verdicts != [] && |logPrefix| == 4 && Fits16(|Render(verdicts)|)
    ensures ResultFromLog(Some(logPrefix + StringBytes(Render(verdicts))), ruleCount) == Render(verdicts)
    ensures AsaMinted(Render(verdicts)) <==> AllPassed(verdicts)
    ensures |Split(Render(verdicts))| == |verdicts|
    ensures forall i :: 0 <= i < |verdicts| ==>
      Breakdown(Split(Render(verdicts))[i]) == (verdicts[i].passed, LayerName(verdicts[i].layer))
  {
    SplitRender(verdicts);
    var s := Render(verdicts);
    var log := logPrefix + StringBytes(s);
    assert log[4..] == StringBytes(s) + [];
    StringRoundTrip([], s, []);
    forall i | 0 <= i < |verdicts|
      ensures StartsWith(Split(s)[i], PASS) <==> verdicts[i].passed
      ensures Breakdown(Split(s)[i]) == (verdicts[i].passed, LayerName(verdicts[i].layer))
    {
      TokenShape(verdicts[i]);
    }
  }

  /** Without a log no rule counts as passed, so nothing counts as minted. */
  lemma {:induction false} UnknownIsNotMinted(ruleCount: nat)
    ensures !AsaMinted(ResultFromLog(None, ruleCount))
  {
    UnknownParts(ruleCount);
  }

  lemma {:induction false} UnknownParts(ruleCount: nat)
    ensures var parts := Split(UnknownResult(ruleCount)); !StartsWith(parts[|parts| - 1], PASS)
  {
    var unknown := FAIL + [COLON, 0x75, 0x6e, 0x6b, 0x6e, 0x6f, 0x77, 0x6e];
    assert BAR !in unknown && unknown[0] != PASS[0];
    if ruleCount <= 1 {
      assert Find(unknown, BAR) == |unknown|;
    } else {
      SplitSnoc(UnknownResult(ruleCount - 1), unknown, UnknownResult(ruleCount));
    }
  }
}
