/** What comes out of the payload channel is what went in. */
module SentinelTheorems {
  import opened Options
  import opened Text
  import opened Sentinel

  // ---- The scan as a whole -----------------------------------------------------------------

  /** Markers do not overlap, so the scan visits every one of them. */
  lemma {:induction false} ScanReaches(s: string, begin: string, parse: Parser, from: nat, p: nat)
    returns (skipped: seq<(Json, string)>)
    requires begin != "" && NoBorder(begin) && Occurs(s, begin, p) && from <= p
    ensures Candidates(s, begin, parse, from) == skipped + Candidates(s, begin, parse, p)
    ensures (forall i :: from <= i < p ==> !Occurs(s, begin, i)) ==> skipped == []
    decreases p - from
  {
    hide Find, CandidateAt;
    var start := Find(s, begin, from).value;
    if start == p {
      FindIs(s, begin, p, p);
      skipped := [];
    } else {
      NoOverlap(s, begin, start, p);
      var rest := ScanReaches(s, begin, parse, start + |begin|, p);
      Regroup(CandidateAt(s, begin, parse, start), rest, Candidates(s, begin, parse, p));
      skipped := CandidateAt(s, begin, parse, start) + rest;
    }
  }

  /** Only what follows a position matters from there on. */
  lemma {:induction false} ScanShifted(a: string, s: string, begin: string, parse: Parser, from: nat)
    requires begin != ""
    ensures Candidates(a + s, begin, parse, |a| + from) == Candidates(s, begin, parse, from)
    decreases |s| - from
  {
    hide Find, Occurs, CandidateAt;
    FindShifted(a, s, begin, from);
    var there := Find(s, begin, from);
    if there.Some? {
      assert Occurs(s, begin, there.value) && Occurs(a + s, begin, |a| + there.value);
      OccursWithin(s, begin, there.value);
      SameCandidate(a, s, begin, parse, there.value);
      ScanShifted(a, s, begin, parse, there.value + |begin|);
    }
  }

  lemma SameCandidate(a: string, s: string, begin: string, parse: Parser, i: nat)
    requires Occurs(s, begin, i) && Occurs(a + s, begin, |a| + i)
    ensures CandidateAt(a + s, begin, parse, |a| + i) == CandidateAt(s, begin, parse, i)
  {
    assert (a + s)[|a| + i + |begin|..] == s[i + |begin|..];
  }

  /** The begin marker at `i` lies in `a`, and so does an end marker behind it. */
  ghost predicate EndsWithin(a: string, begin: string, i: nat) {
    i + |begin| <= |a| && Contains(a[i + |begin|..], END)
  }

  lemma CandidateWithin(a: string, rest: string, begin: string, parse: Parser, i: nat)
    requires EndsWithin(a, begin, i)
    ensures CandidateAt(a + rest, begin, parse, i) == CandidateAt(a, begin, parse, i)
  {
    hide Find;
    var body := a[i + |begin|..];
    var end := Find(body, END, 0).value;
    assert (a + rest)[i + |begin|..] == body + rest;
    OccursWithin(body, END, end);
    forall j | 0 <= j <= end ensures Occurs(body + rest, END, j) <==> Occurs(body, END, j) {
      OccursInFirst(body, rest, END, j);
    }
    FindIs(body + rest, END, 0, end);
    assert (body + rest)[..end] == body[..end];
  }

  /** A scan whose markers before `t` are all complete in `a` reads `a` and `t` as if `x` were not there. */
  lemma {:induction false} HeadThenTail(a: string, x: string, t: string, begin: string, parse: Parser, from: nat)
    requires begin != "" && from <= |a|
    requires forall i :: 0 <= i < |a + x| && Occurs(a + x + t, begin, i) ==> EndsWithin(a, begin, i)
    ensures Candidates(a + x + t, begin, parse, from)
      == Candidates(a, begin, parse, from) + Candidates(t, begin, parse, 0)
    decreases |a| - from
  {
    hide Find, Occurs, CandidateAt, EndsWithin;
    var s, there := a + x + t, Find(a + x + t, begin, from);
    assert s == a + (x + t);
    forall j: nat ensures Occurs(a, begin, j) ==> Occurs(s, begin, j) && j < |a + x| {
      if Occurs(a, begin, j) {
        OccursWithin(a, begin, j);
        OccursInFirst(a, x + t, begin, j);
      }
    }
    if there.Some? && there.value < |a + x| {
      var p := there.value;
      WithinOccurs(a, x + t, begin, p);
      FindIs(a, begin, from, p);
      CandidateWithin(a, x + t, begin, parse, p);
      HeadThenTail(a, x, t, begin, parse, p + |begin|);
      Regroup(CandidateAt(a, begin, parse, p), Candidates(a, begin, parse, p + |begin|),
              Candidates(t, begin, parse, 0));
    } else {
      assert Find(a, begin, from).None?;
      SkipTo(s, begin, parse, from, |a + x|);
      ScanShifted(a + x, t, begin, parse, 0);
    }
  }

  lemma WithinOccurs(a: string, rest: string, begin: string, i: nat)
    requires EndsWithin(a, begin, i) && Occurs(a + rest, begin, i)
    ensures Occurs(a, begin, i) && i + |begin| <= |a|
  {
    OccursInFirst(a, rest, begin, i);
  }

  /** Nothing to find before `to`: the scan may as well start there. */
  lemma SkipTo(s: string, begin: string, parse: Parser, from: nat, to: nat)
    requires begin != "" && from <= to
    requires Find(s, begin, from).Some? ==> Find(s, begin, from).value >= to
    ensures Candidates(s, begin, parse, from) == Candidates(s, begin, parse, to)
  {
    hide Find, CandidateAt;
    var there := Find(s, begin, from);
    if there.Some? { FindIs(s, begin, to, there.value); }
  }

  // ---- One emission in noise ------------------------------------------------------------------

  lemma FirstEnd(text: string, rest: string)
    requires !Contains(text, END)
    ensures Find(text + END + rest, END, 0) == Some(|text|) && text <= text + END + rest
  {
    hide Find;
    var tail := text + END + rest;
    assert tail == text + (END + rest);
    assert Occurs(tail, END, |text|);
    EndHasNoBorder();
    forall j | 0 <= j < |text| ensures !Occurs(tail, END, j) {
      if j + |END| <= |text| {
        OccursInFirst(text, END + rest, END, j);
      } else if Occurs(tail, END, j) {
        NoOverlap(tail, END, j, |text|);
      }
    }
    FindIs(tail, END, 0, |text|);
  }

  /** The nonces under which output after an emission can finish a begin marker that its text started. */
  ghost predicate Hijackable(begin: string) {
    match Find(begin, END, 0)
    case None => false
    case Some(k) => k + |END| < |begin| && begin[k + |END|] == '\n'
  }

  predicate NewlineStarted(suffix: string) { suffix == "" || suffix[0] == '\n' }

  lemma EndLacksBracket(i: nat)
    requires i < |END|
    ensures END[i] != '<'
  {
  }

  /** No begin marker starts inside the payload text and runs past its end. */
  lemma NoneFromText(begin: string, text: string, suffix: string, q: nat)
    requires |begin| >= 10 && begin[|begin| - 1] == '<' && !Hijackable(begin)
    requires !Contains(text, begin) && !Contains(text, END) && NewlineStarted(suffix) && q < |text|
    ensures !Occurs(text + END + suffix, begin, q)
  {
    hide Find;
    var tail, m, n := text + END + suffix, |text|, |begin|;
    if q + n <= m {
      assert tail == text + (END + suffix);
      OccursInFirst(text, END + suffix, begin, q);
    } else if Occurs(tail, begin, q) {
      OccursAt(tail, begin, q, n - 1);
      if q + n <= m + |END| {
        EndLacksBracket(q + n - 1 - m);
      } else {
        EndInside(begin, text, suffix, q);
      }
    }
  }

  /** A begin marker that spans the end marker has it, newline and all, as its own first one. */
  lemma EndInside(begin: string, text: string, suffix: string, q: nat)
    requires Occurs(text + END + suffix, begin, q) && q < |text| && |text| + |END| < q + |begin|
    requires !Contains(text, END) && NewlineStarted(suffix)
    ensures Hijackable(begin)
  {
    hide Find;
    var tail, m := text + END + suffix, |text|;
    OccursNested(tail, begin, q, END, m - q);
    OccursAt(tail, begin, q, m - q + |END|);
    FirstEnd(text, suffix);
    forall j | 0 <= j < m - q ensures !Occurs(begin, END, j) {
      OccursNested(tail, begin, q, END, j);
    }
    FindIs(begin, END, 0, m - q);
  }

  /** The newline after an emission keeps its end marker from opening a new pair. */
  lemma NoneFromEnd(begin: string, text: string, suffix: string, q: nat)
    requires |begin| >= 10 && begin[..9] == "GPBRIDGE<" && NewlineStarted(suffix)
    requires |text| <= q < |text| + |END|
    ensures !Occurs(text + END + suffix, begin, q)
  {
    var tail := text + END + suffix;
    assert begin[0] == begin[..9][0] && begin[1] == begin[..9][1] && begin[8] == begin[..9][8];
    var d := q - |text|;
    assert tail[q] == END[d];
    if d == 2 {
      if q + 8 < |tail| { PartsAt(tail, begin, q, 8); }
    } else if d == 8 {
      assert tail[q + 1] == END[9];
      PartsAt(tail, begin, q, 1);
    } else {
      PartsAt(tail, begin, q, 0);
    }
  }

  lemma NoLaterBegin(nonce: string, text: string, suffix: string, q: nat)
    requires '<' !in Strip(nonce) && !Hijackable(Begin(nonce))
    requires !Contains(text, Begin(nonce)) && !Contains(text, END)
    requires NewlineStarted(suffix) && !Contains(suffix, Begin(nonce))
    ensures !Occurs(text + END + suffix, Begin(nonce), q)
  {
    hide Begin, Strip;
    BeginShape(nonce);
    if q < |text| {
      NoneFromText(Begin(nonce), text, suffix, q);
    } else if q < |text| + |END| {
      NoneFromEnd(Begin(nonce), text, suffix, q);
    } else {
      OccursShifted(text + END, suffix, Begin(nonce), q - |text + END|);
    }
  }

  /** Main result: whatever stands before an emission, and whatever newline-started output without a
      begin marker follows it, the scanner selects exactly the emitted text. */
  lemma EmissionIsSelected(prefix: string, text: string, suffix: string, nonce: string, parse: Parser)
    requires '<' !in Strip(nonce) && !Hijackable(Begin(nonce))
    requires !Contains(text, Begin(nonce)) && !Contains(text, END)
    requires NewlineStarted(suffix) && !Contains(suffix, Begin(nonce))
    requires parse(text).Some?
    ensures var (payload, raw) := Extract(prefix + Wrap(text, nonce) + suffix, nonce, parse);
      && raw == text && payload.Some?
      && (payload == parse(text)
           || (nonce != "" && parse(text).value.Obj? && payload == Some(MarkAmbiguous(parse(text).value))))
      && (nonce == "" || !Contains(prefix, Begin(nonce)) ==> payload == parse(text))
  {
    hide Begin, Strip, MarkAmbiguous, Find, Hijackable, Candidates;
    var skipped := EmissionLast(prefix, text, suffix, nonce, parse);
  }

  /** The emission is the last candidate, and the only one if no begin marker stands before it. */
  lemma EmissionLast(prefix: string, text: string, suffix: string, nonce: string, parse: Parser)
    returns (skipped: seq<(Json, string)>)
    requires '<' !in Strip(nonce) && !Hijackable(Begin(nonce))
    requires !Contains(text, Begin(nonce)) && !Contains(text, END)
    requires NewlineStarted(suffix) && !Contains(suffix, Begin(nonce))
    requires parse(text).Some?
    ensures Candidates(prefix + Wrap(text, nonce) + suffix, Begin(nonce), parse, 0)
      == skipped + [(parse(text).value, text)]
    ensures !Contains(prefix, Begin(nonce)) ==> skipped == []
  {
    hide Begin, Strip, Find, Hijackable;
    var begin, tail := Begin(nonce), text + END + suffix;
    var s, p := prefix + Wrap(text, nonce) + suffix, |prefix|;
    BeginShape(nonce);
    BeginHasNoBorder(nonce);
    assert s == prefix + (begin + tail);
    NothingAfter(prefix + begin, text, suffix, nonce, s);
    FirstEnd(text, suffix);
    OwnCandidate(prefix, begin, tail, text, parse);
    skipped := ScanReaches(s, begin, parse, 0, p);
    if !Contains(prefix, begin) {
      forall i | 0 <= i < p ensures !Occurs(s, begin, i) { NoneInPrefix(prefix, begin, begin + tail, i); }
    }
  }

  /** Another complete emission before it is another candidate. */
  lemma EmittedTwice(a: string, first: string, c: string, text: string, suffix: string, nonce: string, parse: Parser)
    requires '<' !in Strip(nonce) && !Hijackable(Begin(nonce))
    requires !Contains(first, END) && parse(first).Some?
    requires !Contains(text, Begin(nonce)) && !Contains(text, END)
    requires NewlineStarted(suffix) && !Contains(suffix, Begin(nonce))
    requires parse(text).Some?
    ensures |Candidates(a + Wrap(first, nonce) + c + Wrap(text, nonce) + suffix, Begin(nonce), parse, 0)| >= 2
  {
    hide *;
    var begin, tail := Begin(nonce), text + END + suffix;
    var before := a + Wrap(first, nonce) + c;
    var s := a + Wrap(first, nonce) + c + Wrap(text, nonce) + suffix;
    BeginShape(nonce);
    BeginHasNoBorder(nonce);
    TwiceSplit(a, first, c, text, suffix, nonce);
    NothingAfter(before + begin, text, suffix, nonce, s);
    FirstEnd(text, suffix);
    OwnCandidate(before, begin, tail, text, parse);
    FirstPair(a, begin, first, c + Wrap(text, nonce) + suffix, parse);
    var skipped := ScanReaches(s, begin, parse, 0, |a|);
    var between := ScanReaches(s, begin, parse, |a| + |begin|, |before|);
  }

  lemma TwiceSplit(a: string, first: string, c: string, text: string, suffix: string, nonce: string)
    ensures var s := a + Wrap(first, nonce) + c + Wrap(text, nonce) + suffix;
      var before := a + Wrap(first, nonce) + c;
      && s == before + (Begin(nonce) + (text + END + suffix)) == before + Begin(nonce) + (text + END + suffix)
      && s == a + (Begin(nonce) + (first + END + (c + Wrap(text, nonce) + suffix)))
      && |a| + |Begin(nonce)| <= |before|
  {
    hide Begin;
  }

  lemma FirstPair(a: string, begin: string, first: string, rest: string, parse: Parser)
    requires begin != "" && !Contains(first, END) && parse(first).Some?
    ensures var s := a + (begin + (first + END + rest));
      && Occurs(s, begin, |a|)
      && |Candidates(s, begin, parse, |a|)| == 1 + |Candidates(s, begin, parse, |a| + |begin|)|
  {
    hide Find, Candidates;
    var s := a + (begin + (first + END + rest));
    FirstEnd(first, rest);
    Middle(a, begin, first + END + rest);
    assert (first + END + rest)[..|first|] == first;
    MarkerRead(s, begin, parse, |a|);
  }

  lemma MarkerRead(s: string, begin: string, parse: Parser, p: nat)
    requires begin != "" && Occurs(s, begin, p)
    ensures Candidates(s, begin, parse, p) == CandidateAt(s, begin, parse, p) + Candidates(s, begin, parse, p + |begin|)
  {
    hide Find, CandidateAt;
    FindIs(s, begin, p, p);
  }

  lemma LastMarker(s: string, begin: string, parse: Parser, p: nat)
    requires begin != "" && Occurs(s, begin, p) && Find(s, begin, p + |begin|).None?
    ensures Candidates(s, begin, parse, p) == CandidateAt(s, begin, parse, p)
  {
    hide Find, CandidateAt;
    FindIs(s, begin, p, p);
  }

  lemma OwnCandidate(prefix: string, begin: string, tail: string, text: string, parse: Parser)
    requires begin != "" && text <= tail && Find(tail, END, 0) == Some(|text|) && parse(text).Some?
    requires Find(prefix + (begin + tail), begin, |prefix| + |begin|).None?
    ensures Occurs(prefix + (begin + tail), begin, |prefix|)
    ensures Candidates(prefix + (begin + tail), begin, parse, |prefix|) == [(parse(text).value, text)]
  {
    hide Find, Candidates;
    var s := prefix + (begin + tail);
    Middle(prefix, begin, tail);
    assert tail[..|text|] == text;
    LastMarker(s, begin, parse, |prefix|);
  }

  lemma NothingAfter(before: string, text: string, suffix: string, nonce: string, s: string)
    requires '<' !in Strip(nonce) && !Hijackable(Begin(nonce))
    requires !Contains(text, Begin(nonce)) && !Contains(text, END)
    requires NewlineStarted(suffix) && !Contains(suffix, Begin(nonce))
    requires s == before + (text + END + suffix)
    ensures Find(s, Begin(nonce), |before|).None?
  {
    hide Begin, Strip, Find, Hijackable;
    forall i | |before| <= i ensures !Occurs(s, Begin(nonce), i) {
      NoLaterBegin(nonce, text, suffix, i - |before|);
      OccursShifted(before, text + END + suffix, Begin(nonce), i - |before|);
    }
  }

  lemma NoneInPrefix(prefix: string, begin: string, rest: string, i: nat)
    requires NoBorder(begin) && !Contains(prefix, begin) && Occurs(prefix + rest, begin, |prefix|) && i < |prefix|
    ensures !Occurs(prefix + rest, begin, i)
  {
    hide Find;
    if i + |begin| <= |prefix| {
      OccursInFirst(prefix, rest, begin, i);
    } else if Occurs(prefix + rest, begin, i) {
      NoOverlap(prefix + rest, begin, i, |prefix|);
    }
  }

  /** The condition on the nonce is exact: under any other one, some well-behaved text and suffix make
      the scanner select a different body. */
  lemma HijackableNonceLosesText(nonce: string) returns (text: string, suffix: string)
    requires '<' !in Strip(nonce) && Hijackable(Begin(nonce))
    ensures !Contains(text, Begin(nonce)) && !Contains(text, END)
    ensures NewlineStarted(suffix) && !Contains(suffix, Begin(nonce))
    ensures Extract(Wrap(text, nonce) + suffix, nonce, _ => Some(Null)).1 != text
  {
    hide Begin, Strip, Find, Candidates;
    var begin, parse := Begin(nonce), (_: string) => Some(Null);
    var k := Find(begin, END, 0).value;
    BeginShape(nonce);
    BeginHasNoBorder(nonce);
    OccursAt(begin, END, k, 0);
    assert begin[0] == begin[..9][0];
    text, suffix := begin[..k], begin[k + |END|..] + END;
    SplitAtEnd(begin, k);
    Rejoined(begin, text, begin[k + |END|..]);
    TwoMarkers(Wrap(text, nonce) + suffix, begin, parse, text);
  }

  lemma SplitAtEnd(begin: string, k: nat)
    requires Find(begin, END, 0) == Some(k)
    ensures begin == begin[..k] + END + begin[k + |END|..] && !Contains(begin[..k], END)
  {
    hide Find;
    forall j | 0 <= j ensures !Occurs(begin[..k], END, j) {
      if j + |END| <= k { OccursInFirst(begin[..k], begin[k..], END, j); assert begin[..k] + begin[k..] == begin; }
    }
  }

  lemma Rejoined(begin: string, text: string, rest: string)
    requires begin == text + END + rest
    ensures begin + text + END + (rest + END) == begin + (begin + END)
  {
  }

  lemma TwoMarkers(s: string, begin: string, parse: Parser, text: string)
    requires |begin| >= 10 && begin[0] == 'G' && NoBorder(begin) && s == begin + (begin + END) && parse("").Some?
    ensures exists earlier :: Candidates(s, begin, parse, 0) == earlier + [(parse("").value, "")]
  {
    hide Find, Candidates;
    Middle(begin, begin, END);
    FirstEnd("", "");
    assert "" + END + "" == END;
    assert s[2 * |begin|] == END[0];
    forall i | 2 * |begin| <= i ensures !Occurs(s, begin, i) { if i == 2 * |begin| { PartsAt(s, begin, i, 0); } }
    LastMarker(s, begin, parse, |begin|);
    var earlier := ScanReaches(s, begin, parse, 0, |begin|);
  }
}
