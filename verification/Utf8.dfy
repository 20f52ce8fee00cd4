/**
 UTF-8 (section 3 of RFC 3629) as the bridge uses it: strict encoding, and decoding that puts
 U+FFFD in place of each maximal ill-formed piece, as `bytes.decode(errors="replace")` does.
 */
module Utf8 {
  type Byte = b: int | 0 <= b < 256

  const REPLACEMENT: char := '\U{FFFD}'

  function EncodeChar(c: char): (r: seq<Byte>)
    ensures 1 <= |r| <= 4
  {
    var n := c as int;
    if n < 0x80 then [n]
    else if n < 0x800 then [0xC0 + n / 64, 0x80 + n % 64]
    else if n < 0x10000 then [0xE0 + n / 4096, 0x80 + n / 64 % 64, 0x80 + n % 64]
    else [0xF0 + n / 262144, 0x80 + n / 4096 % 64, 0x80 + n / 64 % 64, 0x80 + n % 64]
  }

  function Encode(s: string): seq<Byte> {
    if s == "" then [] else EncodeChar(s[0]) + Encode(s[1..])
  }

  predicate Continues(b: Byte) { 0x80 <= b <= 0xBF }

  /** How many bytes a lead byte announces; 0 for a byte that leads nothing. */
  function Announced(b: Byte): nat {
    if b < 0x80 then 1
    else if 0xC2 <= b <= 0xDF then 2
    else if 0xE0 <= b <= 0xEF then 3
    else if 0xF0 <= b <= 0xF4 then 4
    else 0
  }

  /** The second bytes a lead byte admits: no overlong form, no surrogate, nothing past U+10FFFF. */
  predicate SecondFits(lead: Byte, b: Byte) {
    && Continues(b)
    && (lead == 0xE0 ==> b >= 0xA0) && (lead == 0xED ==> b <= 0x9F)
    && (lead == 0xF0 ==> b >= 0x90) && (lead == 0xF4 ==> b <= 0x8F)
  }

  /** The six bits a continuation byte carries. */
  function Six(b: Byte): int { b - 0x80 }

  /** The first character of a byte string, and how many bytes it takes. */
  function First(b: seq<Byte>): (r: (nat, char))
    requires b != []
    ensures 1 <= r.0 <= 4 && r.0 <= |b|
  {
    var w := Announced(b[0]);
    var lead: int := b[0];
    if w == 1 then (1, lead as char)
    else if w == 0 || |b| < 2 || !SecondFits(b[0], b[1]) then (1, REPLACEMENT)
    else if w == 2 then (2, ((lead - 0xC0) * 64 + Six(b[1])) as char)
    else if |b| < 3 || !Continues(b[2]) then (2, REPLACEMENT)
    else if w == 3 then (3, ((lead - 0xE0) * 4096 + Six(b[1]) * 64 + Six(b[2])) as char)
    else if |b| < 4 || !Continues(b[3]) then (3, REPLACEMENT)
    else (4, ((lead - 0xF0) * 262144 + Six(b[1]) * 4096 + Six(b[2]) * 64 + Six(b[3])) as char)
  }

  function Decode(b: seq<Byte>): string {
    if b == [] then "" else [First(b).1] + Decode(b[First(b).0..])
  }

  // ---- Encoding ----------------------------------------------------------------------------

  lemma {:induction false} EncodeConcat(s: string, t: string)
    ensures Encode(s + t) == Encode(s) + Encode(t)
  {
    if s == "" {
      assert s + t == t;
    } else {
      assert (s + t)[0] == s[0] && (s + t)[1..] == s[1..] + t;
      EncodeConcat(s[1..], t);
    }
  }

  lemma {:induction false} EncodedAtMost(s: string)
    ensures |Encode(s)| <= 4 * |s|
  {
    if s != "" { EncodedAtMost(s[1..]); }
  }

  lemma FirstOfEncoded(c: char, rest: seq<Byte>)
    ensures First(EncodeChar(c) + rest) == (|EncodeChar(c)|, c)
  {
    var e := EncodeChar(c);
    var b := e + rest;
    assert forall i :: 0 <= i < |e| ==> b[i] == e[i];
    if |e| == 3 { ThreeBytes(c); } else if |e| == 4 { FourBytes(c); }
  }

  lemma ThreeBytes(c: char)
    requires 0x800 <= c as int < 0x10000
    ensures var e := EncodeChar(c);
      && SecondFits(e[0], e[1]) && Announced(e[0]) == 3
      && (e[0] - 0xE0) * 4096 + Six(e[1]) * 64 + Six(e[2]) == c as int
  {
  }

  lemma FourBytes(c: char)
    requires 0x10000 <= c as int
    ensures var e := EncodeChar(c);
      && SecondFits(e[0], e[1]) && Announced(e[0]) == 4
      && (e[0] - 0xF0) * 262144 + Six(e[1]) * 4096 + Six(e[2]) * 64 + Six(e[3]) == c as int
  {
    Sextets(c as int);
  }

  lemma Sextets(n: nat)
    ensures n == n / 262144 * 262144 + n / 4096 % 64 * 4096 + n / 64 % 64 * 64 + n % 64
  {
    assert n / 4096 == n / 64 / 64 && n / 262144 == n / 64 / 64 / 64;
  }

  /** Decoding undoes encoding, whatever follows. */
  lemma {:induction false} DecodeEncoded(s: string, rest: seq<Byte>)
    ensures Decode(Encode(s) + rest) == s + Decode(rest)
  {
    if s == "" {
      assert Encode(s) + rest == rest;
    } else {
      var e, more := EncodeChar(s[0]), Encode(s[1..]);
      assert Encode(s) + rest == e + (more + rest);
      FirstOfEncoded(s[0], more + rest);
      assert (e + (more + rest))[|e|..] == more + rest;
      DecodeEncoded(s[1..], rest);
    }
  }

  /** A byte below 0x80 starts a character of its own: what stands before it cannot swallow it. */
  lemma {:induction false} DecodeSplits(a: seq<Byte>, b: seq<Byte>)
    requires b == [] || b[0] < 0x80
    ensures Decode(a + b) == Decode(a) + Decode(b)
    decreases |a|
  {
    if a == [] {
      assert a + b == b;
    } else {
      FirstSplits(a, b);
      var n := First(a).0;
      assert (a + b)[n..] == a[n..] + b;
      DecodeSplits(a[n..], b);
    }
  }

  lemma FirstSplits(a: seq<Byte>, b: seq<Byte>)
    requires a != [] && (b == [] || b[0] < 0x80)
    ensures First(a + b) == First(a)
  {
    var ab := a + b;
    assert forall i :: 0 <= i < |a| ==> ab[i] == a[i];
    if b != [] { assert ab[|a|] == b[0]; }
  }

  // ---- Cutting an encoded text anywhere --------------------------------------------------------

  function Replacements(n: nat): string { seq(n, _ => REPLACEMENT) }

  /** How many bytes of the character it cuts the cut behind `n` bytes leaves in front; 0 if it cuts none. */
  function CutInside(s: string, n: nat): (r: nat)
    ensures r <= 3
  {
    if s == "" || n == 0 then 0
    else if n < |EncodeChar(s[0])| then n
    else CutInside(s[1..], n - |EncodeChar(s[0])|)
  }

  /** How many bytes of the character it cuts that cut leaves behind; 0 if it cuts none. */
  function CutRest(s: string, n: nat): (r: nat)
    ensures r <= 3
  {
    if s == "" || n == 0 then 0
    else if n < |EncodeChar(s[0])| then |EncodeChar(s[0])| - n
    else CutRest(s[1..], n - |EncodeChar(s[0])|)
  }

  /** How many characters end at or before `n` bytes. */
  function WholeBefore(s: string, n: nat): (r: nat)
    ensures r <= |s|
  {
    if s == "" || n < |EncodeChar(s[0])| then 0 else 1 + WholeBefore(s[1..], n - |EncodeChar(s[0])|)
  }

  /** How many characters start before `n` bytes. */
  function StartedBefore(s: string, n: nat): (r: nat)
    ensures r <= |s|
  {
    if s == "" || n == 0 then 0
    else if n < |EncodeChar(s[0])| then 1
    else 1 + StartedBefore(s[1..], n - |EncodeChar(s[0])|)
  }

  lemma {:induction false} CutsInOrder(s: string, m: nat, n: nat)
    requires m <= n
    ensures WholeBefore(s, m) <= StartedBefore(s, n)
  {
    if s != "" && |EncodeChar(s[0])| <= m {
      CutsInOrder(s[1..], m - |EncodeChar(s[0])|, n - |EncodeChar(s[0])|);
    }
  }

  lemma {:induction false} WholeBeforeAtMost(a: string, rest: string, n: nat)
    requires n <= |Encode(a)|
    ensures WholeBefore(a + rest, n) <= |a|
  {
    if a != "" && |EncodeChar(a[0])| <= n {
      assert (a + rest)[1..] == a[1..] + rest;
      WholeBeforeAtMost(a[1..], rest, n - |EncodeChar(a[0])|);
    } else if a == "" {
      assert n == 0;
    }
  }

  lemma {:induction false} StartedBeforeAtMost(a: string, rest: string, n: nat)
    requires n <= |Encode(a)|
    ensures StartedBefore(a + rest, n) <= |a|
  {
    if a != "" && |EncodeChar(a[0])| <= n {
      assert (a + rest)[1..] == a[1..] + rest;
      StartedBeforeAtMost(a[1..], rest, n - |EncodeChar(a[0])|);
    } else if a == "" {
      assert n == 0;
    }
  }

  lemma {:induction false} StartedBeforeAtLeast(a: string, rest: string, n: nat)
    requires |Encode(a)| <= n
    ensures StartedBefore(a + rest, n) >= |a|
  {
    if a != "" {
      assert (a + rest)[1..] == a[1..] + rest;
      StartedBeforeAtLeast(a[1..], rest, n - |EncodeChar(a[0])|);
    }
  }

  lemma PartialCharacter(c: char, k: nat)
    requires 0 < k < |EncodeChar(c)|
    ensures Decode(EncodeChar(c)[..k]) == [REPLACEMENT]
  {
    var e, b := EncodeChar(c), EncodeChar(c)[..k];
    assert forall i :: 0 <= i < k ==> b[i] == e[i];
    if |e| == 3 { ThreeBytes(c); } else if |e| == 4 { FourBytes(c); }
    assert First(b) == (k, REPLACEMENT);
    assert b[k..] == [];
  }

  /** What a cut leaves in front of it: whole characters, then at most three bytes that decode to one U+FFFD. */
  lemma {:induction false} CutBefore(s: string, h: nat) returns (whole: string, partial: seq<Byte>)
    requires h <= |Encode(s)|
    ensures Encode(s)[..h] == Encode(whole) + partial && |partial| == CutInside(s, h)
    ensures Decode(partial) == if partial == [] then "" else [REPLACEMENT]
    ensures whole == s[..WholeBefore(s, h)]
    decreases s
  {
    if s == "" || h == 0 {
      whole, partial := "", [];
    } else {
      var e, more := EncodeChar(s[0]), Encode(s[1..]);
      if h < |e| {
        whole, partial := "", e[..h];
        PartialCharacter(s[0], h);
      } else {
        var w, p := CutBefore(s[1..], h - |e|);
        whole, partial := [s[0]] + w, p;
        assert (e + more)[..h] == e + more[..h - |e|];
        assert whole[1..] == w;
      }
    }
  }

  /** What a cut leaves behind it: at most three continuation bytes, then whole characters. */
  lemma {:induction false} CutAfter(s: string, k: nat) returns (stray: seq<Byte>, whole: string)
    requires k <= |Encode(s)|
    ensures Encode(s)[k..] == stray + Encode(whole) && |stray| == CutRest(s, k)
    ensures forall b :: b in stray ==> Continues(b)
    ensures whole == s[StartedBefore(s, k)..]
    decreases s
  {
    if s == "" || k == 0 {
      stray, whole := [], s;
    } else {
      var e, more := EncodeChar(s[0]), Encode(s[1..]);
      if k < |e| {
        stray, whole := e[k..], s[1..];
        assert (e + more)[k..] == e[k..] + more;
        assert forall i :: 1 <= i < |e| ==> Continues(e[i]);
      } else {
        stray, whole := CutAfter(s[1..], k - |e|);
        assert (e + more)[k..] == more[k - |e|..];
      }
    }
  }

  lemma {:induction false} DecodeStray(stray: seq<Byte>, rest: seq<Byte>)
    requires forall b :: b in stray ==> Continues(b)
    ensures Decode(stray + rest) == Replacements(|stray|) + Decode(rest)
    decreases stray
  {
    if stray == [] {
      assert stray + rest == rest;
    } else {
      assert stray[0] in stray;
      assert (stray + rest)[1..] == stray[1..] + rest;
      DecodeStray(stray[1..], rest);
      assert Replacements(|stray|) == [REPLACEMENT] + Replacements(|stray| - 1);
    }
  }

  lemma {:induction false} EncodedReplacements(n: nat)
    ensures |Encode(Replacements(n))| == 3 * n
  {
    if n > 0 {
      assert Replacements(n)[1..] == Replacements(n - 1);
      EncodedReplacements(n - 1);
    }
  }

  predicate Ascii(s: string) { forall c :: c in s ==> c < '\U{80}' }

  lemma {:induction false} EncodedAscii(s: string)
    requires Ascii(s)
    ensures |Encode(s)| == |s| && (s != "" ==> Encode(s)[0] == s[0] as int)
  {
    if s != "" {
      assert s[0] in s && forall c :: c in s[1..] ==> c in s;
      EncodedAscii(s[1..]);
    }
  }

  lemma {:induction false} AsciiUncut(s: string, n: nat)
    requires Ascii(s)
    ensures CutInside(s, n) == CutRest(s, n) == 0
    ensures WholeBefore(s, n) == StartedBefore(s, n) == if n <= |s| then n else |s|
  {
    if s != "" && n > 0 {
      assert s[0] in s && forall c :: c in s[1..] ==> c in s;
      assert |EncodeChar(s[0])| == 1;
      AsciiUncut(s[1..], n - 1);
    }
  }
}
