/** Keeping a head and a tail of an over-long child output, and saying how much went. */
module RetainedOutput {
  import opened Text
  import opened Utf8
  import opened Sentinel
  import opened SentinelTheorems

  const MAX_CHILD_OUTPUT_BYTES: nat := 32 * 1024 * 1024
  const CHILD_OUTPUT_TAIL_BYTES: nat := 24 * 1024 * 1024
  const CHILD_OUTPUT_MARKER_RESERVE: nat := 81
  const MARKER_HEAD := "\n...[middle dropped: "
  const MARKER_TAIL := " byte(s) of lldb output not retained]...\n"

  function Digits(n: nat): string {
    var last := ['0' + (n % 10) as char];
    if n < 10 then last else Digits(n / 10) + last
  }

  /** "%d". */
  function Decimal(n: int): string { if n < 0 then "-" + Digits(-n) else Digits(n) }

  function Marker(dropped: int): string { MARKER_HEAD + Decimal(dropped) + MARKER_TAIL }

  function Min(a: nat, b: nat): nat { if a < b then a else b }

  /** `max(0, a - b)`. */
  function Less(a: nat, b: nat): nat { if a < b then 0 else a - b }

  function HeadBytes(limit: nat, tail: nat): nat {
    Less(Less(limit, tail), Min(CHILD_OUTPUT_MARKER_RESERVE, Less(limit, tail)))
  }

  /** `data[:n]`. */
  function Front(data: seq<Byte>, n: nat): seq<Byte> { if n >= |data| then data else data[..n] }

  /** `data[-n:]`, which is all of `data` when `n` is 0. */
  function Back(data: seq<Byte>, n: nat): seq<Byte> { if n == 0 || n >= |data| then data else data[|data| - n..] }

  function Cap(text: string, limit: nat := MAX_CHILD_OUTPUT_BYTES, tail: nat := CHILD_OUTPUT_TAIL_BYTES)
    : (string, int)
  {
    var data := Encode(text);
    if |data| <= limit then (text, 0)
    else
      var head := HeadBytes(limit, tail);
      var dropped := |data| - head - tail;
      (Decode(Front(data, head) + Encode(Marker(dropped)) + Back(data, tail)), dropped)
  }

  // ---- The marker -------------------------------------------------------------------------------

  lemma {:induction false} DigitCount(n: nat, bound: nat, width: nat)
    requires n < bound && width > 0 && bound == Power10(width)
    ensures 1 <= |Digits(n)| <= width && Ascii(Digits(n))
    decreases width
  {
    if n >= 10 {
      assert bound == 10 * Power10(width - 1) && width > 1;
      DigitCount(n / 10, Power10(width - 1), width - 1);
    }
  }

  function Power10(n: nat): nat { if n == 0 then 1 else 10 * Power10(n - 1) }

  lemma {:induction false} SomeWidth(n: nat) returns (width: nat)
    ensures width > 0 && n < Power10(width)
  {
    if n < 10 { width := 1; assert Power10(1) == 10 * Power10(0); }
    else { width := SomeWidth(n / 10); width := width + 1; }
  }

  lemma MarkerBytes(dropped: int)
    ensures Ascii(Marker(dropped)) && |Marker(dropped)| == 62 + |Decimal(dropped)| && Marker(dropped)[0] == '\n'
    ensures |Encode(Marker(dropped))| == |Marker(dropped)| && Encode(Marker(dropped))[0] == 10
  {
    hide Encode, Decimal;
    DecimalIsAscii(dropped);
    EncodedAscii(Marker(dropped));
  }

  lemma DecimalIsAscii(n: int)
    ensures Ascii(Decimal(n))
  {
    hide Digits, Power10;
    var m := if n < 0 then -n else n;
    var width := SomeWidth(m);
    DigitCount(m, Power10(width), width);
  }

  // ---- What is retained ---------------------------------------------------------------------------

  /** The retained text is the decoded head, the marker, and the decoded tail: the cuts do not interfere. */
  lemma Pieces(text: string, limit: nat, tail: nat)
    requires |Encode(text)| > limit
    ensures var data := Encode(text); var (kept, dropped) := Cap(text, limit, tail);
      kept == Decode(Front(data, HeadBytes(limit, tail))) + Marker(dropped) + Decode(Back(data, tail))
  {
    hide Encode, Decode, HeadBytes, Front, Back, Marker;
    var data, dropped := Encode(text), Cap(text, limit, tail).1;
    var head, last := Front(data, HeadBytes(limit, tail)), Back(data, tail);
    MarkerBytes(dropped);
    Regroup(head, Encode(Marker(dropped)), last);
    DecodeSplits(head, Encode(Marker(dropped)) + last);
    DecodeEncoded(Marker(dropped), last);
    Regroup(Decode(head), Marker(dropped), Decode(last));
  }

  /** Head bytes, dropped bytes and tail bytes make up the input exactly when there is a tail window
      that fits in it; without one, the slice `data[-0:]` is the whole input again. */
  lemma NothingUncounted(text: string, limit: nat, tail: nat)
    requires |Encode(text)| > limit
    ensures var data := Encode(text); var dropped := Cap(text, limit, tail).1;
      |Front(data, HeadBytes(limit, tail))| + dropped + |Back(data, tail)| == |data| <==> 0 < tail <= |data|
  {
    hide Encode, Decode, Marker;
  }

  lemma DecodedFront(text: string, n: nat)
    requires n <= |Encode(text)|
    ensures |Encode(Decode(Encode(text)[..n]))| == n + FrontGrowth(text, n)
  {
    hide Encode, Decode;
    var whole, partial := CutBefore(text, n);
    DecodeEncoded(whole, partial);
    EncodeConcat(whole, Decode(partial));
    EncodedReplacement();
  }

  lemma EncodedReplacement()
    ensures |Encode([REPLACEMENT])| == 3 && Encode("") == []
  {
  }

  lemma DecodedBack(text: string, k: nat)
    requires k <= |Encode(text)|
    ensures |Encode(Decode(Encode(text)[k..]))| == |Encode(text)| - k + 2 * CutRest(text, k)
  {
    hide Encode, Decode;
    var stray, whole := CutAfter(text, k);
    DecodeStray(stray, Encode(whole));
    DecodeEncoded(whole, []);
    assert Encode(whole) + [] == Encode(whole);
    DecodeNothing();
    assert whole + "" == whole;
    EncodeConcat(Replacements(|stray|), whole);
    EncodedReplacements(|stray|);
  }

  lemma DecodeNothing()
    ensures Decode([]) == ""
  {
  }

  /** What U+FFFD adds in place of the bytes of a character cut off at its end. */
  function FrontGrowth(text: string, n: nat): nat {
    if CutInside(text, n) == 0 then 0 else 3 - CutInside(text, n)
  }

  /** What U+FFFD adds at the two cuts; each byte behind the second cut becomes one of its own. */
  function Growth(text: string, limit: nat, tail: nat): (r: nat)
    ensures r <= 8
  {
    FrontGrowth(text, HeadBytes(limit, tail)) + 2 * CutRest(text, Less(|Encode(text)|, tail))
  }

  function Dropped(text: string, limit: nat, tail: nat): int { |Encode(text)| - HeadBytes(limit, tail) - tail }

  /** Re-encoding costs exactly the windows, the marker and the growth at the cuts. */
  lemma RetainedBytes(text: string, limit: nat, tail: nat)
    requires |Encode(text)| > limit && 0 < tail <= |Encode(text)|
    ensures |Encode(Cap(text, limit, tail).0)|
      == HeadBytes(limit, tail) + 62 + |Decimal(Dropped(text, limit, tail))| + tail + Growth(text, limit, tail)
  {
    hide *;
    var data, dropped := Encode(text), Cap(text, limit, tail).1;
    var head := HeadBytes(limit, tail);
    Windows(data, limit, tail);
    Pieces(text, limit, tail);
    EncodedPieces(Decode(data[..head]), Marker(dropped), Decode(data[|data| - tail..]));
    MarkerBytes(dropped);
    DecodedFront(text, head);
    DecodedBack(text, |data| - tail);
    Counted(text, limit, tail);
  }

  lemma Counted(text: string, limit: nat, tail: nat)
    requires |Encode(text)| > limit
    ensures Cap(text, limit, tail).1 == Dropped(text, limit, tail)
    ensures tail <= |Encode(text)| ==>
      Growth(text, limit, tail) == FrontGrowth(text, HeadBytes(limit, tail)) + 2 * CutRest(text, |Encode(text)| - tail)
  {
    hide Encode, Decode, Marker;
  }

  /** Without a tail window inside the text, all of it is retained beside the marker. */
  lemma NoWindow(text: string, limit: nat, tail: nat)
    requires |Encode(text)| > limit && !(0 < tail <= |Encode(text)|)
    ensures |Encode(Cap(text, limit, tail).0)| > limit
  {
    hide Encode, Decode, HeadBytes, Marker;
    var data, dropped := Encode(text), Cap(text, limit, tail).1;
    Pieces(text, limit, tail);
    DecodeWhole(text);
    EncodedPieces(Decode(Front(data, HeadBytes(limit, tail))), Marker(dropped), Decode(Back(data, tail)));
  }

  lemma EncodedPieces(a: string, b: string, c: string)
    ensures |Encode(a + b + c)| == |Encode(a)| + |Encode(b)| + |Encode(c)|
  {
    EncodeConcat(a + b, c);
    EncodeConcat(a, b);
  }

  lemma Windows(data: seq<Byte>, limit: nat, tail: nat)
    requires |data| > limit && 0 < tail <= |data|
    ensures HeadBytes(limit, tail) <= |data| && Front(data, HeadBytes(limit, tail)) == data[..HeadBytes(limit, tail)]
    ensures Back(data, tail) == data[|data| - tail..]
  {
  }

  /** What the marker may take: the reserve, or what the tail leaves of a smaller limit. */
  function Room(limit: nat, tail: nat): nat { Min(CHILD_OUTPUT_MARKER_RESERVE, Less(limit, tail)) }

  /** Main result: the retained text re-encodes within the limit exactly when nothing had to be dropped,
      or there is a tail window in the text and the marker with the growth at the cuts fits in the room. */
  lemma RetainedWithinLimit(text: string, limit: nat, tail: nat)
    ensures |Encode(Cap(text, limit, tail).0)| <= limit
      <==> || |Encode(text)| <= limit
           || (&& 0 < tail <= |Encode(text)|
               && 62 + |Decimal(Dropped(text, limit, tail))| + Growth(text, limit, tail) <= Room(limit, tail))
  {
    hide Encode, Decode, Decimal, Growth, Marker;
    if |Encode(text)| <= limit {
      NotCapped(text, limit, tail);
    } else if 0 < tail <= |Encode(text)| {
      RetainedBytes(text, limit, tail);
    } else {
      NoWindow(text, limit, tail);
    }
  }

  /** For ASCII output the cuts add nothing. */
  lemma AsciiWithinLimitExactly(text: string, limit: nat, tail: nat)
    requires Ascii(text)
    ensures |Encode(Cap(text, limit, tail).0)| <= limit
      <==> || |text| <= limit
           || (0 < tail <= |text| && 62 + |Decimal(Dropped(text, limit, tail))| <= Room(limit, tail))
  {
    hide Encode, Decimal, Cap;
    EncodedAscii(text);
    AsciiUncut(text, HeadBytes(limit, tail));
    AsciiUncut(text, Less(|text|, tail));
    RetainedWithinLimit(text, limit, tail);
  }

  lemma DecodeWhole(s: string)
    ensures Decode(Encode(s)) == s
  {
    DecodeEncoded(s, []);
    assert Encode(s) + [] == Encode(s) && s + "" == s;
  }

  /** With the module's own limits, output is kept to 32 MiB whenever fewer than 10^11 bytes are dropped. */
  lemma DefaultLimits(text: string)
    requires Cap(text).1 < 100_000_000_000
    ensures |Encode(Cap(text).0)| <= MAX_CHILD_OUTPUT_BYTES
  {
    hide Encode, Decode, Decimal;
    if |Encode(text)| > MAX_CHILD_OUTPUT_BYTES {
      DecimalWidth(Cap(text).1);
      Counted(text, MAX_CHILD_OUTPUT_BYTES, CHILD_OUTPUT_TAIL_BYTES);
      RetainedWithinLimit(text, MAX_CHILD_OUTPUT_BYTES, CHILD_OUTPUT_TAIL_BYTES);
    }
  }

  lemma DecimalWidth(n: int)
    requires 0 <= n < 100_000_000_000
    ensures |Decimal(n)| <= 11
  {
    assert Power10(11) == 100_000_000_000;
    DigitCount(n, 100_000_000_000, 11);
  }

  // ---- The retained text in characters ---------------------------------------------------------------

  /** How many characters lie whole in the head window. */
  function FrontChars(text: string, limit: nat, tail: nat): (r: nat)
    ensures r <= |text|
  {
    WholeBefore(text, HeadBytes(limit, tail))
  }

  /** The first character that lies whole in the tail window. */
  function TailStart(text: string, tail: nat): (r: nat)
    ensures r <= |text|
  {
    StartedBefore(text, Less(|Encode(text)|, tail))
  }

  /** Text that starts no marker, and ends none that began before it. */
  ghost predicate Bridge(x: string) {
    x != "" && (x[0] == '\n' || x[0] == REPLACEMENT) && 'G' !in x
  }

  /** The retained text is a prefix of the text, a bridge, and a suffix of the text. */
  lemma KeptParts(text: string, limit: nat, tail: nat) returns (x: string)
    requires |Encode(text)| > limit && 0 < tail
    ensures FrontChars(text, limit, tail) <= TailStart(text, tail) && Bridge(x)
    ensures Cap(text, limit, tail).0 == text[..FrontChars(text, limit, tail)] + x + text[TailStart(text, tail)..]
  {
    hide *;
    var data, dropped := Encode(text), Cap(text, limit, tail).1;
    var head, k := HeadBytes(limit, tail), Less(|data|, tail);
    HeadBeforeTail(text, limit, tail);
    var whole, partial := CutBefore(text, head);
    DecodeEncoded(whole, partial);
    var stray, rest := CutAfter(text, k);
    DecodeStray(stray, Encode(rest));
    DecodeWhole(rest);
    Pieces(text, limit, tail);
    var p, r := Decode(partial), Replacements(|stray|);
    x := p + Marker(dropped) + r;
    BridgeAcross(p, dropped, |stray|);
    CharsOf(text, limit, tail);
    FiveParts(whole, p, Marker(dropped), r, rest);
  }

  lemma HeadBeforeTail(text: string, limit: nat, tail: nat)
    requires |Encode(text)| > limit && 0 < tail
    ensures var data := Encode(text); var head := HeadBytes(limit, tail); var k := Less(|data|, tail);
      && head <= k <= |data| && Front(data, head) == data[..head] && Back(data, tail) == data[k..]
  {
    hide Encode;
  }

  lemma CharsOf(text: string, limit: nat, tail: nat)
    requires HeadBytes(limit, tail) <= Less(|Encode(text)|, tail)
    ensures FrontChars(text, limit, tail) == WholeBefore(text, HeadBytes(limit, tail)) <= TailStart(text, tail)
    ensures TailStart(text, tail) == StartedBefore(text, Less(|Encode(text)|, tail))
  {
    CutsInOrder(text, HeadBytes(limit, tail), Less(|Encode(text)|, tail));
  }

  lemma FiveParts(a: string, b: string, c: string, d: string, e: string)
    ensures a + b + c + (d + e) == a + (b + c + d) + e
  {
  }

  lemma BridgeAcross(p: string, dropped: int, strays: nat)
    requires p == "" || p == [REPLACEMENT]
    ensures Bridge(p + Marker(dropped) + Replacements(strays))
  {
    hide Encode, Decimal;
    MarkerBytes(dropped);
    DecimalPlain(dropped);
    assert 'G' !in MARKER_HEAD && 'G' !in MARKER_TAIL;
  }

  lemma DecimalPlain(n: int)
    ensures 'G' !in Decimal(n)
  {
    DigitsPlain(if n < 0 then -n else n);
  }

  lemma {:induction false} DigitsPlain(n: nat)
    ensures 'G' !in Digits(n)
  {
    if n >= 10 { DigitsPlain(n / 10); }
  }

  // ---- What the scanner still finds -----------------------------------------------------------------

  /** A begin marker whose bytes lie in the tail window keeps everything after it. */
  lemma TailSurvives(text: string, limit: nat, tail: nat, p: nat) returns (before: string)
    requires |Encode(text)| > limit && p < |text| && text[p] < '\U{80}'
    requires 0 < tail && |Encode(text[p..])| <= tail
    ensures Cap(text, limit, tail).0 == before + text[p..]
  {
    hide Encode, Decode, HeadBytes, Marker, Front;
    var data, rest := Encode(text), Encode(text[p..]);
    assert text == text[..p] + text[p..];
    EncodeConcat(text[..p], text[p..]);
    var last := Back(data, tail);
    var lead := last[..|last| - |rest|];
    assert last == lead + rest;
    EncodedHead(text[p..]);
    DecodeSplits(lead, rest);
    DecodeEncoded(text[p..], []);
    DecodeNothing();
    assert rest + [] == rest && text[p..] + "" == text[p..];
    Pieces(text, limit, tail);
    var dropped := Cap(text, limit, tail).1;
    var front := Decode(Front(data, HeadBytes(limit, tail))) + Marker(dropped);
    before := front + Decode(lead);
    Regroup(front, Decode(lead), text[p..]);
  }

  lemma EncodedHead(s: string)
    requires s != "" && s[0] < '\U{80}'
    ensures Encode(s) != [] && Encode(s)[0] < 0x80
  {
  }

  /** Main result: if the last parseable pair starts in the tail window, dropping the middle does not
      change what the scanner selects. */
  lemma CapKeepsSelection(text: string, nonce: string, parse: Parser, limit: nat, tail: nat, p: nat)
    requires '<' !in Strip(nonce) && 0 < tail
    requires Occurs(text, Begin(nonce), p) && CandidateAt(text, Begin(nonce), parse, p) != []
    requires Candidates(text, Begin(nonce), parse, p + |Begin(nonce)|) == []
    requires |Encode(text[p..])| <= tail
    ensures var capped := Extract(Cap(text, limit, tail).0, nonce, parse); var whole := Extract(text, nonce, parse);
      && capped.1 == whole.1
      && (nonce == "" ==> capped == whole)
  {
    hide Encode, Begin, Strip, Find, CandidateAt, Candidates, Select, Cap, Occurs;
    var begin := Begin(nonce);
    BeginShape(nonce);
    BeginHasNoBorder(nonce);
    if |Encode(text)| > limit {
      var skipped, skipped', last := LastSurvives(text, nonce, parse, limit, tail, p);
      SameSelection(skipped, skipped', last, text, Cap(text, limit, tail).0, nonce);
    } else {
      NotCapped(text, limit, tail);
    }
  }

  /** The last candidate, which the tail window holds, is the last one of the retained text too. */
  lemma LastSurvives(text: string, nonce: string, parse: Parser, limit: nat, tail: nat, p: nat)
    returns (skipped: seq<(Json, string)>, skipped': seq<(Json, string)>, last: (Json, string))
    requires '<' !in Strip(nonce) && 0 < tail
    requires Occurs(text, Begin(nonce), p) && CandidateAt(text, Begin(nonce), parse, p) != []
    requires Candidates(text, Begin(nonce), parse, p + |Begin(nonce)|) == []
    requires |Encode(text[p..])| <= tail
    ensures Candidates(text, Begin(nonce), parse, 0) == skipped + [last]
    ensures Candidates(Cap(text, limit, tail).0, Begin(nonce), parse, 0) == skipped' + [last]
  {
    hide Encode, Begin, Strip, Find, CandidateAt, Candidates, Cap, Occurs;
    var begin := Begin(nonce);
    BeginShape(nonce);
    BeginHasNoBorder(nonce);
    last := OnlyCandidate(text, begin, parse, p);
    OccursAt(text, begin, p, 0);
    OccursWithin(text, begin, p);
    assert text == text[..p] + text[p..];
    OccursShifted(text[..p], text[p..], begin, 0);
    ScanShifted(text[..p], text[p..], begin, parse, 0);
    skipped := FromThere(text[..p], text[p..], begin, parse);
    if |Encode(text)| > limit {
      assert begin[0] == begin[..9][0];
      var before := TailSurvives(text, limit, tail, p);
      OccursShifted(before, text[p..], begin, 0);
      skipped' := FromThere(before, text[p..], begin, parse);
    } else {
      NotCapped(text, limit, tail);
      skipped' := skipped;
    }
  }

  lemma MarkShows(j: Json)
    requires j.Obj?
    ensures MarkAmbiguous(j) != j
  {
    var marked := MarkAmbiguous(j).members;
    if "errors" in j.members && j.members["errors"].Arr? {
      assert marked["errors"] == Arr(j.members["errors"].items + [Str("ambiguous")]);
    }
  }

  /** Main result: under those conditions the cap keeps the payload as well exactly when no nonce is in play,
      the payload is no object, or several pairs are left exactly if there were several. */
  lemma CapKeepsPayloadExactly(text: string, nonce: string, parse: Parser, limit: nat, tail: nat, p: nat)
    requires '<' !in Strip(nonce) && 0 < tail
    requires Occurs(text, Begin(nonce), p) && CandidateAt(text, Begin(nonce), parse, p) != []
    requires Candidates(text, Begin(nonce), parse, p + |Begin(nonce)|) == []
    requires |Encode(text[p..])| <= tail
    ensures var kept := Cap(text, limit, tail).0;
      var before, after := Candidates(text, Begin(nonce), parse, 0), Candidates(kept, Begin(nonce), parse, 0);
      && before != [] && after != [] && after[|after| - 1] == before[|before| - 1]
      && (Extract(kept, nonce, parse).0 == Extract(text, nonce, parse).0
          <==> nonce == "" || !before[|before| - 1].0.Obj? || (|before| > 1 <==> |after| > 1))
  {
    hide Encode, Begin, Strip, Find, CandidateAt, Candidates, Cap, Occurs, MarkAmbiguous;
    var skipped, skipped', last := LastSurvives(text, nonce, parse, limit, tail, p);
    if last.0.Obj? { MarkShows(last.0); }
  }

  /** A nonce of which no part can stand where the output was cut; hexadecimal ones are. */
  predicate PlainNonce(nonce: string) { '\n' !in Strip(nonce) && REPLACEMENT !in Strip(nonce) }

  lemma BeginPlain(nonce: string)
    requires PlainNonce(nonce)
    ensures var b := Begin(nonce); '\n' !in b && REPLACEMENT !in b && b[0] == 'G'
  {
    hide Strip;
  }

  /** No begin marker is cut, or loses its end marker, where the middle was dropped. */
  ghost predicate PairsClear(text: string, nonce: string, limit: nat, tail: nat) {
    forall i :: 0 <= i < TailStart(text, tail) && Occurs(text, Begin(nonce), i)
                ==> EndsWithin(text[..FrontChars(text, limit, tail)], Begin(nonce), i)
  }

  /** Main result: if every begin marker before the tail window stands in the head window with its end
      marker, the scanner finds the very same pairs in the retained text. */
  lemma CapKeepsPairs(text: string, nonce: string, parse: Parser, limit: nat, tail: nat)
    requires PlainNonce(nonce) && 0 < tail && PairsClear(text, nonce, limit, tail)
    ensures Candidates(Cap(text, limit, tail).0, Begin(nonce), parse, 0) == Candidates(text, Begin(nonce), parse, 0)
  {
    hide Encode, Begin, Strip, Find, Candidates, Cap, Occurs, EndsWithin, FrontChars, TailStart, PlainNonce;
    if |Encode(text)| > limit {
      var begin := Begin(nonce);
      var x := KeptParts(text, limit, tail);
      var n, q := FrontChars(text, limit, tail), TailStart(text, tail);
      var a, dropped, t := text[..n], text[n..q], text[q..];
      assert text == a + dropped + t;
      BeginPlain(nonce);
      HeadThenTail(a, dropped, t, begin, parse, 0);
      forall i | 0 <= i < |a + x| && Occurs(a + x + t, begin, i) ensures EndsWithin(a, begin, i) {
        NoneInBridge(a, x, t, dropped + t, begin, i);
        assert text == a + (dropped + t);
      }
      HeadThenTail(a, x, t, begin, parse, 0);
    } else {
      NotCapped(text, limit, tail);
    }
  }

  /** A begin marker that starts before the tail lies before the bridge, where it stood before. */
  lemma NoneInBridge(a: string, x: string, t: string, rest: string, begin: string, i: nat)
    requires Bridge(x) && begin != "" && begin[0] == 'G' && '\n' !in begin && REPLACEMENT !in begin && i < |a + x|
    ensures Occurs(a + x + t, begin, i) ==> i < |a| && Occurs(a + rest, begin, i)
  {
    hide Occurs;
    var s := a + x + t;
    assert s == a + (x + t);
    if |a| <= i {
      assert s[i] == x[i - |a|] && x[i - |a|] in x;
      PartsAt(s, begin, i, 0);
    } else if i + |begin| > |a| {
      assert s[|a|] == x[0] && begin[|a| - i] in begin;
      PartsAt(s, begin, i, |a| - i);
    } else {
      OccursInFirst(a, x + t, begin, i);
      OccursInFirst(a, rest, begin, i);
    }
  }

  lemma NotCapped(text: string, limit: nat, tail: nat)
    requires |Encode(text)| <= limit
    ensures Cap(text, limit, tail) == (text, 0)
  {
  }

  lemma OnlyCandidate(text: string, begin: string, parse: Parser, p: nat) returns (last: (Json, string))
    requires begin != "" && Occurs(text, begin, p) && CandidateAt(text, begin, parse, p) != []
    requires Candidates(text, begin, parse, p + |begin|) == []
    ensures Candidates(text, begin, parse, p) == [last]
  {
    hide Find;
    FindIs(text, begin, p, p);
    last := CandidateAt(text, begin, parse, p)[0];
  }

  /** Whatever stands in front of a begin marker, the candidates from it on end the list. */
  lemma FromThere(before: string, s: string, begin: string, parse: Parser) returns (skipped: seq<(Json, string)>)
    requires begin != "" && NoBorder(begin) && Occurs(before + s, begin, |before|)
    ensures Candidates(before + s, begin, parse, 0) == skipped + Candidates(s, begin, parse, 0)
  {
    hide Candidates;
    ScanShifted(before, s, begin, parse, 0);
    skipped := ScanReaches(before + s, begin, parse, 0, |before|);
  }

  lemma SameSelection(c: seq<(Json, string)>, d: seq<(Json, string)>, last: (Json, string), s: string, t: string,
                      nonce: string)
    ensures Select(c + [last], s, nonce).1 == Select(d + [last], t, nonce).1
    ensures nonce == "" ==> Select(c + [last], s, nonce) == Select(d + [last], t, nonce)
  {
    hide MarkAmbiguous;
  }

  /** Main result: an emission that fits in the tail window is read back whole from the retained output,
      however much was printed before it. */
  lemma EmissionSurvivesCap(prefix: string, text: string, suffix: string, nonce: string, parse: Parser, limit: nat,
                            tail: nat)
    requires '<' !in Strip(nonce) && !Hijackable(Begin(nonce))
    requires !Contains(text, Begin(nonce)) && !Contains(text, END)
    requires NewlineStarted(suffix) && !Contains(suffix, Begin(nonce))
    requires parse(text).Some? && 0 < tail && |Encode(Wrap(text, nonce) + suffix)| <= tail
    ensures Extract(Cap(prefix + Wrap(text, nonce) + suffix, limit, tail).0, nonce, parse).1 == text
  {
    hide Encode, Begin, Strip, Find, Extract, Hijackable, Cap;
    var s, emitted := prefix + Wrap(text, nonce) + suffix, Wrap(text, nonce) + suffix;
    BeginShape(nonce);
    if |Encode(s)| > limit {
      assert s[|prefix|..] == emitted;
      assert emitted[0] == Begin(nonce)[..9][0];
      var before := TailSurvives(s, limit, tail, |prefix|);
      Regroup(before, Wrap(text, nonce), suffix);
      EmissionIsSelected(before, text, suffix, nonce, parse);
    } else {
      NotCapped(s, limit, tail);
      EmissionIsSelected(prefix, text, suffix, nonce, parse);
    }
  }

  // ---- The number in the marker --------------------------------------------------------------------------

  function Value(s: string): int {
    if s == "" then 0 else 10 * Value(s[..|s| - 1]) + (s[|s| - 1] as int - '0' as int)
  }

  lemma {:induction false} DigitsRead(n: nat)
    ensures (forall c :: c in Digits(n) ==> '0' <= c <= '9') && Value(Digits(n)) == n
    ensures Digits(n) != "" && (n > 0 ==> Digits(n)[0] != '0')
  {
    if n >= 10 {
      DigitsRead(n / 10);
      assert Digits(n)[..|Digits(n)| - 1] == Digits(n / 10);
    } else {
      assert Digits(n)[..0] == "";
    }
  }

  /** The marker names the number of dropped bytes in decimal. */
  lemma MarkerTells(text: string, limit: nat, tail: nat)
    requires |Encode(text)| > limit && tail <= |Encode(text)|
    ensures var dropped := Cap(text, limit, tail).1;
      && dropped == |Encode(text)| - HeadBytes(limit, tail) - tail >= 0
      && Marker(dropped) == "\n...[middle dropped: " + Digits(dropped) + " byte(s) of lldb output not retained]...\n"
      && (forall c :: c in Digits(dropped) ==> '0' <= c <= '9') && Value(Digits(dropped)) == dropped
  {
    hide Encode, Decode, Digits;
    Counted(text, limit, tail);
    DigitsRead(Dropped(text, limit, tail));
  }
}
