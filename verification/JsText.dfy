/** Trimming and line splitting as JavaScript's String does them. */
module JsText {
  /** JavaScript's `\s` and what `trim` removes. */
  predicate IsSpace(c: char) {
    || '\t' <= c <= '\r' || c == ' ' || c == '\U{a0}' || c == '\U{1680}' || '\U{2000}' <= c <= '\U{200a}'
    || c == '\U{2028}' || c == '\U{2029}' || c == '\U{202f}' || c == '\U{205f}' || c == '\U{3000}' || c == '\U{feff}'
  }

  function TrimStart(s: string): string { if s != "" && IsSpace(s[0]) then TrimStart(s[1..]) else s }
  function TrimEnd(s: string): string { if s != "" && IsSpace(s[|s| - 1]) then TrimEnd(s[..|s| - 1]) else s }
  function Trim(s: string): string { TrimEnd(TrimStart(s)) }

  /** `text.split('\n').filter((line) => line !== '')` */
  function Lines(text: string): (r: seq<string>)
    ensures forall line :: line in r ==> line != "" && '\n' !in line
  {
    Split(text, "")
  }

  function Split(text: string, line: string): (r: seq<string>)
    requires '\n' !in line
    ensures forall l :: l in r ==> l != "" && '\n' !in l
    decreases text
  {
    if text == "" then if line == "" then [] else [line]
    else if text[0] == '\n' then (if line == "" then [] else [line]) + Split(text[1..], "")
    else Split(text[1..], line + [text[0]])
  }

  // ---- What trimming and splitting give --------------------------------------------------------------

  predicate Blank(s: string) { forall c :: c in s ==> IsSpace(c) }

  lemma {:induction false} TrimStartParts(s: string) returns (a: string)
    ensures s == a + TrimStart(s) && Blank(a) && (TrimStart(s) != "" ==> !IsSpace(TrimStart(s)[0]))
  {
    if s != "" && IsSpace(s[0]) {
      var rest := TrimStartParts(s[1..]);
      a := [s[0]] + rest;
    } else {
      a := "";
    }
  }

  lemma {:induction false} TrimEndParts(s: string) returns (b: string)
    ensures s == TrimEnd(s) + b && Blank(b)
    ensures TrimEnd(s) != "" ==> !IsSpace(TrimEnd(s)[|TrimEnd(s)| - 1]) && TrimEnd(s)[0] == s[0]
  {
    if s != "" && IsSpace(s[|s| - 1]) {
      b := TrimEndParts(s[..|s| - 1]);
      b := b + [s[|s| - 1]];
    } else {
      b := "";
    }
  }

  lemma {:induction false} TrimStartCore(a: string, t: string)
    requires Blank(a) && (t != "" ==> !IsSpace(t[0]))
    ensures TrimStart(a + t) == t
  {
    if a == "" {
      assert a + t == t;
    } else {
      assert a[0] in a && (a + t)[1..] == a[1..] + t && forall c :: c in a[1..] ==> c in a;
      TrimStartCore(a[1..], t);
    }
  }

  lemma {:induction false} TrimEndCore(t: string, b: string)
    requires Blank(b) && (t != "" ==> !IsSpace(t[|t| - 1]))
    ensures TrimEnd(t + b) == t
    decreases |b|
  {
    if b == "" {
      assert t + b == t;
    } else {
      var front := b[..|b| - 1];
      assert b[|b| - 1] in b && (t + b)[..|t + b| - 1] == t + front && forall c :: c in front ==> c in b;
      TrimEndCore(t, front);
    }
  }

  /** Trimming takes the white space off both ends and nothing else. */
  lemma TrimExactly(s: string, t: string)
    ensures t == Trim(s) <==>
      && (t != "" ==> !IsSpace(t[0]) && !IsSpace(t[|t| - 1]))
      && exists a, b :: s == a + t + b && Blank(a) && Blank(b)
  {
    var a := TrimStartParts(s);
    var b := TrimEndParts(TrimStart(s));
    assert s == a + Trim(s) + b;
    if t != "" ==> !IsSpace(t[0]) && !IsSpace(t[|t| - 1]) {
      if a', b' :| s == a' + t + b' && Blank(a') && Blank(b') { TrimCore(a', t, b'); }
    }
  }

  lemma TrimCore(a: string, t: string, b: string)
    requires Blank(a) && Blank(b) && (t != "" ==> !IsSpace(t[0]) && !IsSpace(t[|t| - 1]))
    ensures Trim(a + t + b) == t
  {
    if t == "" {
      assert a + t + b == (a + b) + "" && Blank(a + b);
      TrimStartCore(a + b, "");
    } else {
      assert a + t + b == a + (t + b);
      TrimStartCore(a, t + b);
      TrimEndCore(t, b);
    }
  }

  lemma BlankExactly(s: string)
    ensures Trim(s) == "" <==> Blank(s)
  {
    var a := TrimStartParts(s);
    var b := TrimEndParts(TrimStart(s));
    if Blank(s) {
      assert s == s + "" + "";
      TrimCore(s, "", "");
    }
    assert s == a + Trim(s) + b;
  }

  lemma {:induction false} SplitBreaks(a: string, b: string, line: string)
    requires '\n' !in line
    ensures Split(a + "\n" + b, line) == Split(a, line) + Split(b, "")
    decreases a
  {
    var s := a + "\n" + b;
    if a == "" {
      assert s[0] == '\n' && s[1..] == b;
    } else {
      assert s[0] == a[0] && s[1..] == a[1..] + "\n" + b;
      SplitBreaks(a[1..], b, if a[0] == '\n' then "" else line + [a[0]]);
    }
  }

  lemma {:induction false} SplitUnbroken(a: string, line: string)
    requires '\n' !in line && '\n' !in a
    ensures Split(a, line) == if line + a == "" then [] else [line + a]
    decreases a
  {
    if a == "" {
      assert line + a == line;
    } else {
      assert a[0] in a && forall c :: c in a[1..] ==> c in a;
      SplitUnbroken(a[1..], line + [a[0]]);
      assert line + [a[0]] + a[1..] == line + a;
    }
  }

  /** The lines of a text are its pieces between line breaks, without the empty ones. */
  lemma LinesExactly(a: string, b: string)
    requires '\n' !in a
    ensures Lines(a) == if a == "" then [] else [a]
    ensures Lines(a + "\n" + b) == Lines(a) + Lines(b)
  {
    SplitUnbroken(a, "");
    SplitBreaks(a, b, "");
    assert "" + a == a;
  }

  lemma {:induction false} SplitChars(text: string, line: string)
    requires '\n' !in line
    ensures (forall l :: l in Split(text, line) ==> Blank(l)) <==> Blank(text) && Blank(line)
    decreases text
  {
    if text != "" {
      assert forall c :: c in text <==> c == text[0] || c in text[1..];
      if text[0] == '\n' {
        SplitChars(text[1..], "");
        assert forall l :: l in Split(text, line) <==> (line != "" && l == line) || l in Split(text[1..], "");
      } else {
        SplitChars(text[1..], line + [text[0]]);
        assert Blank(line + [text[0]]) <==> Blank(line) && IsSpace(text[0]) by {
          assert forall c :: c in line + [text[0]] <==> c in line || c == text[0];
        }
      }
    }
  }

  /** All lines of a text are blank exactly when it has nothing but white space. */
  lemma BlankLines(text: string)
    ensures (forall l :: l in Lines(text) ==> Blank(l)) <==> Blank(text)
  {
    SplitChars(text, "");
  }
}
