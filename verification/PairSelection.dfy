/** Which pairs the scanner reads, and which one it selects, in terms of the text alone. */
module PairSelection {
  import opened Options
  import opened Text
  import opened Sentinel
  import opened SentinelTheorems

  /** A begin marker at `i`, a body up to the first end marker behind it, and what the body parses to. */
  ghost predicate IsPair(s: string, begin: string, parse: Parser, i: nat, v: Json, body: string) {
    && Occurs(s, begin, i) && body + END <= s[i + |begin|..]
    && (forall j :: 0 <= j < |body| ==> !Occurs(body + END, END, j))
    && parse(body) == Some(v)
  }

  ghost predicate PairAt(s: string, begin: string, parse: Parser, i: nat) {
    exists v, body :: IsPair(s, begin, parse, i, v, body)
  }

  /** The first end marker of a text, by what stands before it. */
  lemma EndBehind(rest: string, body: string)
    requires body + END <= rest
    ensures Find(rest, END, 0) == Some(|body|) <==> forall j :: 0 <= j < |body| ==> !Occurs(body + END, END, j)
  {
    hide Find;
    assert rest == body + END + rest[|body + END|..];
    forall j | 0 <= j <= |body| ensures Occurs(rest, END, j) <==> Occurs(body + END, END, j) {
      OccursInFirst(body + END, rest[|body + END|..], END, j);
    }
    assert Occurs(rest, END, |body|) by { assert rest[|body|..|body| + |END|] == END; }
    if forall j :: 0 <= j < |body| ==> !Occurs(body + END, END, j) { FindIs(rest, END, 0, |body|); }
  }

  lemma EndFound(rest: string, end: nat)
    requires Find(rest, END, 0) == Some(end)
    ensures end <= |rest| && rest[..end] + END <= rest
  {
    hide Find;
    assert rest[..end] + END == rest[..end + |END|];
  }

  /** What the scanner makes of a begin marker is a pair, or nothing. */
  lemma CandidateIsPair(s: string, begin: string, parse: Parser, i: nat)
    requires Occurs(s, begin, i)
    ensures var c := CandidateAt(s, begin, parse, i);
      && |c| <= 1 && (c == [] ==> !PairAt(s, begin, parse, i))
      && (c != [] ==> IsPair(s, begin, parse, i, c[0].0, c[0].1))
      && forall v, body :: IsPair(s, begin, parse, i, v, body) ==> c == [(v, body)]
  {
    hide Find, Occurs;
    OccursWithin(s, begin, i);
    var rest := s[i + |begin|..];
    if Find(rest, END, 0).Some? {
      EndFound(rest, Find(rest, END, 0).value);
      EndBehind(rest, rest[..Find(rest, END, 0).value]);
    }
    forall v, body | IsPair(s, begin, parse, i, v, body) ensures CandidateAt(s, begin, parse, i) == [(v, body)] {
      EndBehind(rest, body);
      assert rest[..|body|] == body;
    }
  }

  ghost predicate Listing(s: string, begin: string, parse: Parser, from: nat, c: seq<(Json, string)>, at: seq<nat>) {
    && |at| == |c| && (forall j, k :: 0 <= j < k < |at| ==> at[j] < at[k])
    && (forall k :: 0 <= k < |at| ==> from <= at[k] && IsPair(s, begin, parse, at[k], c[k].0, c[k].1))
    && (forall i :: from <= i && PairAt(s, begin, parse, i) ==> i in at)
  }

  lemma ListingCons(s: string, begin: string, parse: Parser, from: nat, next: nat, start: nat,
                    c: seq<(Json, string)>, at: seq<nat>)
    requires from <= start < next && Listing(s, begin, parse, next, c, at) && Occurs(s, begin, start)
    requires forall i :: from <= i < next && i != start ==> !PairAt(s, begin, parse, i)
    ensures var own := CandidateAt(s, begin, parse, start);
      Listing(s, begin, parse, from, own + c, (if own == [] then [] else [start]) + at)
  {
    hide IsPair, CandidateAt, Occurs;
    CandidateIsPair(s, begin, parse, start);
  }

  /** Main result: the candidates are exactly the parseable pairs of the text, in the order they stand in it. */
  lemma {:induction false} CandidatesExactly(s: string, begin: string, parse: Parser, from: nat) returns (at: seq<nat>)
    requires begin != "" && NoBorder(begin)
    ensures Listing(s, begin, parse, from, Candidates(s, begin, parse, from), at)
    decreases |s| - from
  {
    hide Find, CandidateAt, IsPair, Listing, Occurs, NoBorder;
    var there := Find(s, begin, from);
    PairsOccur(s, begin, parse);
    if there.None? {
      at := [];
      NothingListed(s, begin, parse, from);
    } else {
      var start := there.value;
      OccursWithin(s, begin, start);
      var next := start + |begin|;
      forall i | from <= i < next && i != start ensures !PairAt(s, begin, parse, i) {
        if i > start { NoneInside(s, begin, start, i); }
      }
      at := CandidatesExactly(s, begin, parse, next);
      ListingCons(s, begin, parse, from, next, start, Candidates(s, begin, parse, next), at);
      at := (if CandidateAt(s, begin, parse, start) == [] then [] else [start]) + at;
    }
  }

  lemma NothingListed(s: string, begin: string, parse: Parser, from: nat)
    requires forall i :: from <= i ==> !PairAt(s, begin, parse, i)
    ensures Listing(s, begin, parse, from, [], [])
  {
  }

  lemma PairsOccur(s: string, begin: string, parse: Parser)
    ensures forall i :: PairAt(s, begin, parse, i) ==> Occurs(s, begin, i)
  {
  }

  /** Main result: the last parseable pair is selected, and its payload is marked exactly when it is an object,
      a nonce is in play, and another pair stands before it. */
  lemma SelectedExactly(s: string, nonce: string, parse: Parser, i: nat, v: Json, body: string)
    requires '<' !in Strip(nonce) && IsPair(s, Begin(nonce), parse, i, v, body)
    requires forall j :: j > i ==> !PairAt(s, Begin(nonce), parse, j)
    ensures Extract(s, nonce, parse).1 == body
    ensures var earlier := exists j: nat :: j < i && PairAt(s, Begin(nonce), parse, j);
      Extract(s, nonce, parse).0 == Some(if nonce != "" && earlier && v.Obj? then MarkAmbiguous(v) else v)
  {
    hide Begin, Strip, MarkAmbiguous, Candidates, Occurs, IsPair;
    var begin := Begin(nonce);
    BeginShape(nonce);
    BeginHasNoBorder(nonce);
    var c := Candidates(s, begin, parse, 0);
    var at := CandidatesExactly(s, begin, parse, 0);
    assert PairAt(s, begin, parse, i);
    var n := |at| - 1;
    assert PairAt(s, begin, parse, at[n]) && at[n] == i;
    PairUnique(s, begin, parse, i);
    if j: nat :| j < i && PairAt(s, begin, parse, j) { assert j in at; }
    if n > 0 { assert PairAt(s, begin, parse, at[0]) && at[0] < i; }
  }

  lemma PairUnique(s: string, begin: string, parse: Parser, i: nat)
    ensures forall v, body, v', body' ::
      IsPair(s, begin, parse, i, v, body) && IsPair(s, begin, parse, i, v', body') ==> v == v' && body == body'
  {
    hide CandidateAt;
    if Occurs(s, begin, i) { CandidateIsPair(s, begin, parse, i); }
  }

  /** With no parseable pair there is no payload, and the raw text is everything. */
  lemma NothingSelected(s: string, nonce: string, parse: Parser)
    requires '<' !in Strip(nonce) && forall j :: !PairAt(s, Begin(nonce), parse, j)
    ensures Extract(s, nonce, parse) == (None, s)
  {
    hide Begin, Strip, Candidates, IsPair;
    BeginShape(nonce);
    BeginHasNoBorder(nonce);
    var at := CandidatesExactly(s, Begin(nonce), parse, 0);
    SomethingListed(s, Begin(nonce), parse, 0, Candidates(s, Begin(nonce), parse, 0), at);
  }

  lemma SomethingListed(s: string, begin: string, parse: Parser, from: nat, c: seq<(Json, string)>, at: seq<nat>)
    requires Listing(s, begin, parse, from, c, at)
    ensures c != [] ==> exists i :: PairAt(s, begin, parse, i)
  {
    hide IsPair;
    if c != [] { assert PairAt(s, begin, parse, at[0]); }
  }

  // ---- Malformed pairs are passed over ------------------------------------------------------------------

  /** Main result: markers that are never closed, or enclose what does not parse, change nothing: behind an
      emission they leave its text selected, and before it they leave its payload unmarked. */
  lemma MalformedPassedOver(prefix: string, text: string, suffix: string, nonce: string, parse: Parser)
    requires '<' !in Strip(nonce) && !Hijackable(Begin(nonce))
    requires !Contains(text, Begin(nonce)) && !Contains(text, END) && NewlineStarted(suffix)
    requires forall j :: !PairAt(suffix, Begin(nonce), parse, j)
    requires parse(text).Some?
    ensures var s := prefix + Wrap(text, nonce) + suffix;
      && Extract(s, nonce, parse).1 == text
      && ((forall j: nat :: j < |prefix| ==> !PairAt(s, Begin(nonce), parse, j)) ==>
            Extract(s, nonce, parse).0 == parse(text))
  {
    hide *;
    var begin := Begin(nonce);
    var s := prefix + Wrap(text, nonce) + suffix;
    Split(prefix, text, suffix, nonce);
    FirstEnd(text, suffix);
    EmissionIsPair(prefix, begin, text, suffix, parse);
    forall j: nat | j > |prefix| ensures !PairAt(s, begin, parse, j) {
      NoPairBehind(prefix, text, suffix, nonce, parse, j);
    }
    SelectedExactly(s, nonce, parse, |prefix|, parse(text).value, text);
  }

  lemma Split(prefix: string, text: string, suffix: string, nonce: string)
    ensures prefix + Wrap(text, nonce) + suffix == prefix + (Begin(nonce) + (text + END + suffix))
  {
    hide Begin;
  }

  lemma EmissionIsPair(prefix: string, begin: string, text: string, suffix: string, parse: Parser)
    requires !Contains(text, END) && parse(text).Some?
    ensures IsPair(prefix + (begin + (text + END + suffix)), begin, parse, |prefix|, parse(text).value, text)
  {
    hide Find;
    Middle(prefix, begin, text + END + suffix);
    FirstEnd(text, suffix);
    assert text + END <= text + END + suffix;
    EndBehind(text + END + suffix, text);
  }

  lemma NoPairBehind(prefix: string, text: string, suffix: string, nonce: string, parse: Parser, j: nat)
    requires '<' !in Strip(nonce) && !Hijackable(Begin(nonce))
    requires !Contains(text, Begin(nonce)) && !Contains(text, END) && NewlineStarted(suffix)
    requires (forall k :: !PairAt(suffix, Begin(nonce), parse, k)) && j > |prefix|
    ensures !PairAt(prefix + (Begin(nonce) + (text + END + suffix)), Begin(nonce), parse, j)
  {
    hide Begin, Strip, Find, Hijackable, IsPair, Occurs, PairAt, NewlineStarted;
    var begin, tail := Begin(nonce), text + END + suffix;
    var s := prefix + (begin + tail);
    BeginShape(nonce);
    BeginHasNoBorder(nonce);
    PairsOccur(s, begin, parse);
    OccursBehind(prefix, begin, tail);
    if j < |prefix| + |begin| {
      NoneInside(s, begin, |prefix|, j);
    } else if j < |prefix| + |begin| + |text + END| {
      var q := j - |prefix + begin|;
      assert s == (prefix + begin) + tail;
      if q < |text| { NoneFromText(begin, text, suffix, q); } else { NoneFromEnd(begin, text, suffix, q); }
      OccursShifted(prefix + begin, tail, begin, q);
    } else {
      assert s == (prefix + begin + text + END) + suffix;
      PairShifted(prefix + begin + text + END, suffix, begin, parse, j - |prefix + begin + text + END|);
    }
  }

  lemma OccursBehind(a: string, begin: string, rest: string)
    ensures Occurs(a + (begin + rest), begin, |a|)
  {
    Middle(a, begin, rest);
  }

  lemma NoneInside(s: string, begin: string, p: nat, j: nat)
    requires NoBorder(begin) && Occurs(s, begin, p) && p < j < p + |begin|
    ensures !Occurs(s, begin, j)
  {
    hide Occurs;
    if Occurs(s, begin, j) { NoOverlap(s, begin, p, j); }
  }

  lemma PairShifted(a: string, s: string, begin: string, parse: Parser, i: nat)
    ensures PairAt(a + s, begin, parse, |a| + i) ==> PairAt(s, begin, parse, i)
  {
    hide Occurs;
    OccursShifted(a, s, begin, i);
    var k := |a| + i;
    if v, body :| IsPair(a + s, begin, parse, k, v, body) {
      OccursWithin(s, begin, i);
      assert (a + s)[|a| + i + |begin|..] == s[i + |begin|..];
      assert IsPair(s, begin, parse, i, v, body);
    }
  }

  // ---- Nonces and marks -----------------------------------------------------------------------------------

  /** Stripping takes the white space off both ends and nothing else. */
  lemma StripExactly(s: string, t: string)
    ensures t == Strip(s) <==>
      && (t != "" ==> !IsSpace(t[0]) && !IsSpace(t[|t| - 1]))
      && exists a, b :: s == a + t + b && (forall c :: c in a ==> IsSpace(c)) && (forall c :: c in b ==> IsSpace(c))
  {
    var a, b := Stripped(s);
    assert s == a + Strip(s) + b;
    if t != "" ==> !IsSpace(t[0]) && !IsSpace(t[|t| - 1]) {
      if a', b' :| s == a' + t + b' && (forall c :: c in a' ==> IsSpace(c)) && (forall c :: c in b' ==> IsSpace(c)) {
        StripCore(a', t, b');
      }
    }
  }

  lemma {:induction false} StrippedLeft(s: string) returns (a: string)
    ensures s == a + StripLeft(s) && (forall c :: c in a ==> IsSpace(c))
    ensures StripLeft(s) != "" ==> !IsSpace(StripLeft(s)[0])
  {
    if s != "" && IsSpace(s[0]) {
      var rest := StrippedLeft(s[1..]);
      a := [s[0]] + rest;
    } else {
      a := "";
    }
  }

  lemma {:induction false} Stripped(s: string) returns (a: string, b: string)
    ensures s == a + Strip(s) + b && (forall c :: c in a ==> IsSpace(c)) && (forall c :: c in b ==> IsSpace(c))
    ensures var t := Strip(s); t != "" ==> !IsSpace(t[0]) && !IsSpace(t[|t| - 1])
    decreases |s|
  {
    if s != "" && IsSpace(s[|s| - 1]) {
      a, b := Stripped(s[..|s| - 1]);
      b := b + [s[|s| - 1]];
    } else {
      a := StrippedLeft(s);
      b := "";
      if StripLeft(s) != "" { assert s[|s| - 1] == StripLeft(s)[|StripLeft(s)| - 1]; }
    }
  }

  lemma {:induction false} StripCore(a: string, t: string, b: string)
    requires (forall c :: c in a ==> IsSpace(c)) && (forall c :: c in b ==> IsSpace(c))
    requires t != "" ==> !IsSpace(t[0]) && !IsSpace(t[|t| - 1])
    ensures Strip(a + t + b) == t
    decreases |b|
  {
    var s := a + t + b;
    if b != "" {
      assert s[|s| - 1] == b[|b| - 1] && b[|b| - 1] in b && s[..|s| - 1] == a + t + b[..|b| - 1];
      StripCore(a, t, b[..|b| - 1]);
    } else if t != "" {
      assert s == a + t && s[|s| - 1] == t[|t| - 1];
      StripLeftCore(a, t);
    } else {
      assert s == a;
      StripBlank(a);
    }
  }

  lemma {:induction false} StripLeftCore(a: string, t: string)
    requires (forall c :: c in a ==> IsSpace(c)) && (t != "" ==> !IsSpace(t[0]))
    ensures StripLeft(a + t) == t
  {
    if a == "" {
      assert a + t == t;
    } else {
      assert a[0] in a && (a + t)[1..] == a[1..] + t && forall c :: c in a[1..] ==> c in a;
      StripLeftCore(a[1..], t);
    }
  }

  lemma {:induction false} StripBlank(a: string)
    requires forall c :: c in a ==> IsSpace(c)
    ensures Strip(a) == ""
    decreases |a|
  {
    if a != "" {
      assert a[|a| - 1] in a && forall c :: c in a[..|a| - 1] ==> c in a;
      StripBlank(a[..|a| - 1]);
    }
  }

  /** Different nonces have different begin markers, and a blank one has the plain marker. */
  lemma BeginTellsNonces(m: string, n: string)
    ensures Begin(m) == Begin(n) <==> Strip(m) == Strip(n)
    ensures Strip(n) == "" ==> Begin(n) == "GPBRIDGE<<"
    ensures Strip(n) != "" ==> Begin(n)[9..|Begin(n)| - 2] == Strip(n)
  {
    hide Strip;
    var b, c := Begin(m), Begin(n);
    assert Strip(m) != "" ==> b[9..|b| - 2] == Strip(m);
    assert Strip(n) != "" ==> c[9..|c| - 2] == Strip(n);
  }

  /** The mark adds itself and a note to the payload's errors; every other member is kept. */
  lemma MarkKeeps(j: Json)
    requires j.Obj?
    ensures var m := MarkAmbiguous(j);
      && m.Obj? && "stdoutAmbiguous" in m.members && m.members["stdoutAmbiguous"] == Bool(true)
      && (forall k :: k in j.members && k != "stdoutAmbiguous" && k != "errors" ==>
            k in m.members && m.members[k] == j.members[k])
      && "errors" in m.members && m.members["errors"].Arr?
      && ("errors" in j.members && j.members["errors"].Arr? ==>
            |m.members["errors"].items| == |j.members["errors"].items| + 1
            && j.members["errors"].items <= m.members["errors"].items)
  {
    assert "stdoutAmbiguous" != "errors";
  }
}
