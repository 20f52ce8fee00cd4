/** From what the child printed to the exit code: the cap stands between the stream and the scanner. */
module ChildVerdict {
  import opened Options
  import opened Text
  import opened Utf8
  import opened Sentinel
  import opened SentinelTheorems
  import opened RetainedOutput
  import opened Verdict

  /** The exit code for a whole child output. */
  function OuterVerdict(v: Vocabulary, stream: string, nonce: string, parse: Parser, notes: seq<Json>, emitted: bool,
                        limit: nat := MAX_CHILD_OUTPUT_BYTES, tail: nat := CHILD_OUTPUT_TAIL_BYTES): int
  {
    RunVerdict(v, Cap(stream, limit, tail).0, nonce, parse, notes, emitted)
  }

  function Pairs(s: string, nonce: string, parse: Parser): seq<(Json, string)> { Candidates(s, Begin(nonce), parse, 0) }

  /** Main result: a run is endorsed exactly when one parseable pair is left in the retained text and holds an
      endorsable payload; where no pair reaches into the dropped middle, exactly when one was on the stream. */
  lemma OuterEndorsedExactly(v: Vocabulary, stream: string, nonce: string, parse: Parser, notes: seq<Json>,
                             limit: nat, tail: nat)
    requires nonce != ""
    ensures var left := Pairs(Cap(stream, limit, tail).0, nonce, parse); var printed := Pairs(stream, nonce, parse);
      var code := OuterVerdict(v, stream, nonce, parse, notes, true, limit, tail);
      && (code == 0 || code == 3 <==> |left| == 1 && Endorsable(v, left[0].0))
      && (PlainNonce(nonce) && 0 < tail && PairsClear(stream, nonce, limit, tail) ==>
            (code == 0 || code == 3 <==> |printed| == 1 && Endorsable(v, printed[0].0)))
      && (code == 3 ==> CrashReported(v, left[0].0))
      && (code == 0 ==> !CrashReported(v, left[0].0))
  {
    hide *;
    EndorsedExactly(v, Cap(stream, limit, tail).0, nonce, parse, notes);
    if PlainNonce(nonce) && 0 < tail && PairsClear(stream, nonce, limit, tail) {
      CapKeepsPairs(stream, nonce, parse, limit, tail);
    }
    Unfolded(v, stream, nonce, parse, notes, limit, tail);
  }

  lemma Unfolded(v: Vocabulary, stream: string, nonce: string, parse: Parser, notes: seq<Json>, limit: nat, tail: nat)
    ensures var kept := Cap(stream, limit, tail).0;
      && OuterVerdict(v, stream, nonce, parse, notes, true, limit, tail)
           == RunVerdict(v, kept, nonce, parse, notes, true)
      && Pairs(kept, nonce, parse) == Candidates(kept, Begin(nonce), parse, 0)
      && Pairs(stream, nonce, parse) == Candidates(stream, Begin(nonce), parse, 0)
  {
  }

  /** Main result: with the last parseable pair in the tail window, the cap changes the verdict exactly when
      that pair is endorsable and the cap turns several pairs into one or one into several. */
  lemma VerdictKeptExactly(v: Vocabulary, stream: string, nonce: string, parse: Parser, notes: seq<Json>,
                           limit: nat, tail: nat, p: nat)
    requires nonce != "" && '<' !in Strip(nonce) && 0 < tail
    requires Occurs(stream, Begin(nonce), p) && CandidateAt(stream, Begin(nonce), parse, p) != []
    requires Candidates(stream, Begin(nonce), parse, p + |Begin(nonce)|) == []
    requires |Encode(stream[p..])| <= tail
    ensures var left := Pairs(Cap(stream, limit, tail).0, nonce, parse); var printed := Pairs(stream, nonce, parse);
      && printed != []
      && (OuterVerdict(v, stream, nonce, parse, notes, true, limit, tail)
            == RunVerdict(v, stream, nonce, parse, notes, true)
          <==> !Endorsable(v, printed[|printed| - 1].0) || (|printed| > 1 <==> |left| > 1))
  {
    hide *;
    CapKeepsPayloadExactly(stream, nonce, parse, limit, tail, p);
    EndorsedExactly(v, stream, nonce, parse, notes);
    EndorsedExactly(v, Cap(stream, limit, tail).0, nonce, parse, notes);
    Unfolded(v, stream, nonce, parse, notes, limit, tail);
  }

  // ---- An ambiguous run that is endorsed -----------------------------------------------------------------

  lemma NoBeginWithoutG(s: string, nonce: string)
    requires 'G' !in s
    ensures !Contains(s, Begin(nonce))
  {
    hide Begin, Find;
    BeginShape(nonce);
    assert Begin(nonce)[0] == Begin(nonce)[..9][0];
    forall i | 0 <= i ensures !Occurs(s, Begin(nonce), i) {
      if i < |s| { assert s[i] in s; PartsAt(s, Begin(nonce), i, 0); }
    }
  }

  /** A pair printed early enough, and another in the tail window after enough other output. */
  ghost predicate FarApart(a: string, c: string, own: string, limit: nat, tail: nat) {
    && 'G' !in a && 'G' !in c
    && |Encode(a)| >= limit && |Encode(c)| >= tail > 0 && |Encode(own)| <= tail
  }

  /** What is left of such a stream ends with the second emission, behind text without a marker. */
  lemma FirstDropped(a: string, first: string, c: string, own: string, limit: nat, tail: nat) returns (before: string)
    requires FarApart(a, c, own, limit, tail)
    ensures Cap(a + first + c + own, limit, tail).0 == before + own && 'G' !in before
  {
    hide Encode, Cap, FrontChars, TailStart;
    var s := a + first + c + own;
    EncodedPieces(a + first, c, own);
    EncodeConcat(a, first);
    var x := KeptParts(s, limit, tail);
    Located(a, first, c, own, limit, tail);
    var n, q := FrontChars(s, limit, tail), TailStart(s, tail);
    assert s[..n] == a[..n] && s[q..] == c[q - |a + first|..] + own;
    before := a[..n] + x + c[q - |a + first|..];
    assert s[..n] + x + s[q..] == before + own;
    assert forall ch :: ch in a[..n] ==> ch in a;
    assert forall ch :: ch in c[q - |a + first|..] ==> ch in c;
  }

  lemma Located(a: string, first: string, c: string, own: string, limit: nat, tail: nat)
    requires FarApart(a, c, own, limit, tail)
    ensures var s := a + first + c + own;
      FrontChars(s, limit, tail) <= |a| && |a + first| <= TailStart(s, tail) <= |a + first + c|
  {
    hide Encode, WholeBefore, StartedBefore;
    var s := a + first + c + own;
    EncodedPieces(a + first, c, own);
    EncodeConcat(a + first, c);
    var k := |Encode(s)| - tail;
    assert s == a + (first + c + own);
    WholeBeforeAtMost(a, first + c + own, HeadBytes(limit, tail));
    assert s == (a + first) + (c + own);
    StartedBeforeAtLeast(a + first, c + own, k);
    StartedBeforeAtMost(a + first + c, own, k);
  }

  /** The declaration of an ambiguous stream goes with the pair that is dropped: two parseable pairs far enough
      apart are judged 1 as printed, and as the capture in the second one after the cap. */
  lemma AmbiguityDropped(v: Vocabulary, a: string, forged: string, c: string, text: string, nonce: string,
                         parse: Parser, notes: seq<Json>, limit: nat, tail: nat)
    requires nonce != "" && '<' !in Strip(nonce) && !Hijackable(Begin(nonce))
    requires !Contains(forged, END) && !Contains(text, Begin(nonce)) && !Contains(text, END)
    requires parse(forged).Some? && parse(text).Some? && Endorsable(v, parse(text).value)
    requires FarApart(a, c, Wrap(text, nonce) + "\n", limit, tail)
    ensures var stream := a + Wrap(forged, nonce) + c + (Wrap(text, nonce) + "\n");
      && |Pairs(stream, nonce, parse)| >= 2 && |Pairs(Cap(stream, limit, tail).0, nonce, parse)| == 1
      && RunVerdict(v, stream, nonce, parse, notes, true) == 1
      && OuterVerdict(v, stream, nonce, parse, notes, true, limit, tail)
           == if CrashReported(v, parse(text).value) then 3 else 0
  {
    hide *;
    var own := Wrap(text, nonce) + "\n";
    var stream := a + Wrap(forged, nonce) + c + own;
    NewlineHarmless(nonce);
    Regroup(a + Wrap(forged, nonce) + c, Wrap(text, nonce), "\n");
    EmittedTwice(a, forged, c, text, "\n", nonce, parse);
    var before := FirstDropped(a, Wrap(forged, nonce), c, own, limit, tail);
    NoBeginWithoutG(before, nonce);
    Regroup(before, Wrap(text, nonce), "\n");
    var skipped := EmissionLast(before, text, "\n", nonce, parse);
    EndorsedExactly(v, stream, nonce, parse, notes);
    EndorsedExactly(v, Cap(stream, limit, tail).0, nonce, parse, notes);
    Unfolded(v, stream, nonce, parse, notes, limit, tail);
  }

  lemma NewlineHarmless(nonce: string)
    ensures NewlineStarted("\n") && !Contains("\n", Begin(nonce))
  {
    NoBeginWithoutG("\n", nonce);
  }

  function Constantly(payload: Json): Parser { _ => Some(payload) }

  function Spaces(n: nat): string { seq(n, _ => ' ') }

  /** Such a stream under the module's own limits: 32 MiB, a pair, 24 MiB, and a pair. */
  function TwoPairs(): string {
    var pair := Wrap("", "0a");
    Spaces(MAX_CHILD_OUTPUT_BYTES) + pair + Spaces(CHILD_OUTPUT_TAIL_BYTES) + (pair + "\n")
  }

  lemma TwoPairsEndorsed(v: Vocabulary, payload: Json, notes: seq<Json>)
    requires Endorsable(v, payload)
    ensures var parse := Constantly(payload);
      && |Pairs(TwoPairs(), "0a", parse)| >= 2
      && RunVerdict(v, TwoPairs(), "0a", parse, notes, true) == 1
      && OuterVerdict(v, TwoPairs(), "0a", parse, notes, true) != 1
  {
    hide *;
    var a, c := Spaces(MAX_CHILD_OUTPUT_BYTES), Spaces(CHILD_OUTPUT_TAIL_BYTES);
    var parse := Constantly(payload);
    SpacesApart();
    ShortNonce();
    Parses(payload);
    AmbiguityDropped(v, a, "", c, "", "0a", parse, notes, MAX_CHILD_OUTPUT_BYTES, CHILD_OUTPUT_TAIL_BYTES);
    Instance();
  }

  lemma Parses(payload: Json)
    ensures Constantly(payload)("") == Some(payload)
  {
  }

  lemma Instance()
    ensures TwoPairs() == Spaces(MAX_CHILD_OUTPUT_BYTES) + Wrap("", "0a") + Spaces(CHILD_OUTPUT_TAIL_BYTES)
                          + (Wrap("", "0a") + "\n")
  {
  }

  lemma ShortNonce()
    ensures Begin("0a") == "GPBRIDGE<0a<<" && '<' !in Strip("0a") && !Hijackable(Begin("0a"))
    ensures !Contains("", END) && !Contains("", Begin("0a"))
  {
    hide Find;
    var begin := "GPBRIDGE<0a<<";
    assert Strip("0a") == "0a" by { assert StripLeft("0a") == "0a"; }
    forall i | 0 <= i ensures !Occurs(begin, END, i) {
      if i + |END| <= |begin| { PartsAt(begin, END, i, 0); }
    }
  }

  lemma SpacesApart()
    ensures FarApart(Spaces(MAX_CHILD_OUTPUT_BYTES), Spaces(CHILD_OUTPUT_TAIL_BYTES), Wrap("", "0a") + "\n",
                     MAX_CHILD_OUTPUT_BYTES, CHILD_OUTPUT_TAIL_BYTES)
  {
    hide Encode, Spaces, Wrap, Begin;
    ShortNonce();
    SpacesEncoded(MAX_CHILD_OUTPUT_BYTES);
    SpacesEncoded(CHILD_OUTPUT_TAIL_BYTES);
    WrapShort();
  }

  lemma SpacesEncoded(n: nat)
    ensures 'G' !in Spaces(n) && |Encode(Spaces(n))| == n
  {
    hide Encode;
    EncodedAscii(Spaces(n));
  }

  lemma WrapShort()
    ensures |Encode(Wrap("", "0a") + "\n")| <= 100
  {
    hide Encode, Begin;
    ShortNonce();
    var s := "GPBRIDGE<0a<<" + "" + END + "\n";
    assert s == Wrap("", "0a") + "\n" && |s| == 24;
    EncodedAtMost(s);
  }
}
