/** The launch agent's property list: escaping, rendering, and reading the program back. */
module Plist {
  import opened Options
  import opened Text
  import opened JsText

  /** `s.replace(/pat/g, rep)` for a literal pattern. */
  function ReplaceAll(s: string, pat: string, rep: string): string
    requires pat != ""
  {
    if s == "" then ""
    else if pat <= s then rep + ReplaceAll(s[|pat|..], pat, rep)
    else [s[0]] + ReplaceAll(s[1..], pat, rep)
  }

  function EscapeXml(s: string): string {
    ReplaceAll(ReplaceAll(ReplaceAll(s, "&", "&amp;"), "<", "&lt;"), ">", "&gt;")
  }

  function UnescapeXml(s: string): string {
    var angles := ReplaceAll(ReplaceAll(s, "&lt;", "<"), "&gt;", ">");
    ReplaceAll(ReplaceAll(ReplaceAll(angles, "&quot;", "\""), "&apos;", "'"), "&amp;", "&")
  }

  // ---- Escaping character by character ------------------------------------------------------------

  /** How one character is written when the chosen characters are escaped. */
  function Written(c: char, amp: bool, lt: bool, gt: bool): string {
    if c == '&' && amp then "&amp;" else if c == '<' && lt then "&lt;" else if c == '>' && gt then "&gt;" else [c]
  }

  function Spelled(s: string, amp: bool, lt: bool, gt: bool): string {
    if s == "" then "" else Written(s[0], amp, lt, gt) + Spelled(s[1..], amp, lt, gt)
  }

  /** Text without the pattern's first character is passed over. */
  lemma {:induction false} ReplaceCopies(t: string, rest: string, pat: string, rep: string)
    requires pat != "" && pat[0] !in t
    ensures ReplaceAll(t + rest, pat, rep) == t + ReplaceAll(rest, pat, rep)
  {
    if t == "" {
      assert t + rest == rest;
    } else {
      assert t[0] in t && forall c :: c in t[1..] ==> c in t;
      assert (t + rest)[1..] == t[1..] + rest;
      ReplaceCopies(t[1..], rest, pat, rep);
    }
  }

  /** Escaping ampersands, then `<`, then `>` spells each character once. */
  lemma {:induction false} EscapeSpells(s: string)
    ensures ReplaceAll(s, "&", "&amp;") == Spelled(s, true, false, false)
    ensures ReplaceAll(Spelled(s, true, false, false), "<", "&lt;") == Spelled(s, true, true, false)
    ensures ReplaceAll(Spelled(s, true, true, false), ">", "&gt;") == Spelled(s, true, true, true)
  {
    if s != "" {
      EscapeSpells(s[1..]);
      EscapeOne(s[0], s[1..]);
    }
  }

  lemma EscapeOne(c: char, rest: string)
    ensures ReplaceAll([c] + rest, "&", "&amp;") == Written(c, true, false, false) + ReplaceAll(rest, "&", "&amp;")
    ensures var tail := Spelled(rest, true, false, false);
      ReplaceAll(Written(c, true, false, false) + tail, "<", "&lt;")
        == Written(c, true, true, false) + ReplaceAll(tail, "<", "&lt;")
    ensures var tail := Spelled(rest, true, true, false);
      ReplaceAll(Written(c, true, true, false) + tail, ">", "&gt;")
        == Written(c, true, true, true) + ReplaceAll(tail, ">", "&gt;")
  {
    hide Spelled;
    ReplaceHead(c, rest, "&", "&amp;");
    ReplaceEntity(c, Spelled(rest, true, false, false), "<", "&lt;", true, false);
    ReplaceEntity(c, Spelled(rest, true, true, false), ">", "&gt;", true, true);
  }

  lemma ReplaceHead(c: char, rest: string, pat: string, rep: string)
    requires |pat| == 1
    ensures ReplaceAll([c] + rest, pat, rep) == (if c == pat[0] then rep else [c]) + ReplaceAll(rest, pat, rep)
  {
    assert ([c] + rest)[1..] == rest;
  }

  lemma ReplaceEntity(c: char, tail: string, pat: string, rep: string, amp: bool, lt: bool)
    requires (pat == "<" && amp && !lt) || (pat == ">" && amp && lt)
    ensures ReplaceAll(Written(c, amp, lt, false) + tail, pat, rep)
      == (if [c] == pat then rep else Written(c, amp, lt, false)) + ReplaceAll(tail, pat, rep)
  {
    var w := Written(c, amp, lt, false);
    if |w| == 1 { ReplaceHead(c, tail, pat, rep); } else { ReplaceCopies(w, tail, pat, rep); }
  }

  // ---- Unescaping ---------------------------------------------------------------------------------

  lemma EntityRead(c: char, tail: string, pat: string, rep: string, lt: bool, gt: bool)
    requires pat in ["&lt;", "&gt;", "&quot;", "&apos;", "&amp;"]
    ensures var w := Written(c, true, lt, gt);
      ReplaceAll(w + tail, pat, rep) == (if w == pat then rep else w) + ReplaceAll(tail, pat, rep)
  {
    var w := Written(c, true, lt, gt);
    var s := w + tail;
    if w == pat {
      assert pat <= s && s[|pat|..] == tail;
    } else if |w| == 1 {
      ReplaceCopies(w, tail, pat, rep);
    } else {
      OtherEntity(w, tail, pat);
      assert s[1..] == w[1..] + tail;
      ReplaceCopies(w[1..], tail, pat, rep);
      assert [w[0]] + w[1..] == w;
    }
  }

  /** No entity is the beginning of another one. */
  lemma OtherEntity(w: string, tail: string, pat: string)
    requires w in ["&lt;", "&gt;", "&amp;"] && pat in ["&lt;", "&gt;", "&quot;", "&apos;", "&amp;"] && w != pat
    ensures !(pat <= w + tail)
  {
    assert (w + tail)[1] == w[1] && (w + tail)[2] == w[2];
  }

  /** Each of the five replacements undoes its own escape and touches no other one. */
  lemma {:induction false} UnescapeReads(s: string)
    ensures ReplaceAll(Spelled(s, true, true, true), "&lt;", "<") == Spelled(s, true, false, true)
    ensures ReplaceAll(Spelled(s, true, false, true), "&gt;", ">") == Spelled(s, true, false, false)
    ensures ReplaceAll(Spelled(s, true, false, false), "&quot;", "\"") == Spelled(s, true, false, false)
    ensures ReplaceAll(Spelled(s, true, false, false), "&apos;", "'") == Spelled(s, true, false, false)
    ensures ReplaceAll(Spelled(s, true, false, false), "&amp;", "&") == s
  {
    if s != "" {
      UnescapeReads(s[1..]);
      EntityRead(s[0], Spelled(s[1..], true, true, true), "&lt;", "<", true, true);
      EntityRead(s[0], Spelled(s[1..], true, false, true), "&gt;", ">", false, true);
      EntityRead(s[0], Spelled(s[1..], true, false, false), "&quot;", "\"", false, false);
      EntityRead(s[0], Spelled(s[1..], true, false, false), "&apos;", "'", false, false);
      EntityRead(s[0], Spelled(s[1..], true, false, false), "&amp;", "&", false, false);
    }
  }

  /** Main result: unescaping undoes escaping, for every string. */
  lemma UnescapeEscape(s: string)
    ensures UnescapeXml(EscapeXml(s)) == s && EscapeXml(s) == Spelled(s, true, true, true)
  {
    EscapeSpells(s);
    UnescapeReads(s);
  }

  lemma {:induction false} EscapedHasNoTag(s: string)
    ensures '<' !in EscapeXml(s)
  {
    UnescapeEscape(s);
    SpelledHasNoTag(s);
  }

  lemma {:induction false} SpelledHasNoTag(s: string)
    ensures '<' !in Spelled(s, true, true, true)
  {
    if s != "" { SpelledHasNoTag(s[1..]); }
  }

  // ---- Rendering ----------------------------------------------------------------------------------

  /** Text in which no tag begins. */
  type Untagged = s: string | '<' !in s witness ""

  /** A stretch of the document: a tag with the text behind it, or text without a tag. */
  datatype Piece = Tag(body: Untagged) | Plain(text: Untagged)

  function Render(p: Piece): string { match p case Tag(body) => "<" + body case Plain(text) => text }

  function Flatten(pieces: seq<Piece>): string {
    if pieces == [] then "" else Render(pieces[0]) + Flatten(pieces[1..])
  }

  const PROGRAM := "<key>Program</key>"
  const ARGUMENTS := "<key>ProgramArguments</key>"

  const DECLARATION: seq<Piece> := [Tag("?xml version=\"1.0\" "), Plain("encoding=\"UTF-8\"?>\n")]

  const DOCTYPE: seq<Piece> := [Tag("!DOCTYPE plist PUBLIC "), Plain("\"-//Apple//DTD PLIST 1.0//EN\" ")]
  const SYSTEM_ID: seq<Piece> := [Plain("\"http://www.apple.com/DTDs/"), Plain("PropertyList-1.0.dtd\">\n")]

  const LABEL_KEY: seq<Piece> := [
    Tag("plist version=\"1.0\">\n  "), Tag("dict>\n    "), Tag("key>Label"), Tag("/key>\n    ")]

  const RUN_AT_LOAD: seq<Piece> := [
    Tag("/array>\n    "), Tag("key>RunAtLoad"), Tag("/key>\n    "), Tag("true/>\n    ")]

  const KEEP_ALIVE: seq<Piece> := [
    Tag("key>KeepAlive"), Tag("/key>\n    "), Tag("dict>\n      "), Tag("key>SuccessfulExit"), Tag("/key>\n      ")]

  const THROTTLE: seq<Piece> := [
    Tag("false/>\n    "), Tag("/dict>\n    "), Tag("key>ThrottleInterval"), Tag("/key>\n    ")]

  const STANDARD_OUT: seq<Piece> := [
    Tag("integer>5"), Tag("/integer>\n    "), Tag("key>StandardOutPath"), Tag("/key>\n    ")]

  const STANDARD_ERROR: seq<Piece> := [Tag("key>StandardErrorPath"), Tag("/key>\n    ")]
  const CLOSING: seq<Piece> := [Tag("/dict>\n"), Tag("/plist>\n")]

  function StringNode(value: string, after: Untagged): seq<Piece> {
    EscapedHasNoTag(value);
    [Tag("string>"), Plain(EscapeXml(value)), Tag("/string>" + after)]
  }

  function Before(name: string): seq<Piece> {
    DECLARATION + DOCTYPE + SYSTEM_ID + LABEL_KEY + StringNode(name, "\n    ")
  }

  const INDENT: Untagged := "\n      "

  function FirstNode(daemonBin: string): seq<Piece> { [Plain(INDENT)] + StringNode(daemonBin, INDENT) }

  function LaterNodes(socketPath: string): seq<Piece> {
    StringNode("--socket-path", INDENT) + StringNode(socketPath, "\n    ")
  }

  function Arguments(daemonBin: string, socketPath: string): seq<Piece> {
    FirstNode(daemonBin) + LaterNodes(socketPath)
  }

  function After(logPath: string): seq<Piece> {
    RUN_AT_LOAD + KEEP_ALIVE + THROTTLE + STANDARD_OUT + StringNode(logPath, "\n    ")
    + STANDARD_ERROR + StringNode(logPath, "\n  ") + CLOSING
  }

  function LaunchdPlist(name: string, daemonBin: string, socketPath: string, logPath: string): string {
    Flatten(Before(name)) + (ARGUMENTS + ("\n    " + ("<array>"
      + (Flatten(Arguments(daemonBin, socketPath)) + Flatten(After(logPath))))))
  }

  // ---- Reading the program back ---------------------------------------------------------------------

  function SkipSpace(s: string, i: nat): (r: nat)
    requires i <= |s|
    ensures i <= r <= |s|
    ensures forall k :: i <= k < r ==> IsSpace(s[k])
    ensures r < |s| ==> !IsSpace(s[r])
    decreases |s| - i
  {
    if i < |s| && IsSpace(s[i]) then SkipSpace(s, i + 1) else i
  }

  /** `open([\s\S]*?)close` from `i` on, `open` exactly at `i`. */
  function Enclosed(s: string, open: string, close: string, i: nat): Option<string> {
    if !Occurs(s, open, i) then None
    else
      match Find(s, close, i + |open|)
      case None => None
      case Some(end) => Some(s[i + |open|..end])
  }

  /** The first match of `key\s*open([\s\S]*?)close` at or after `from`. */
  function AfterKey(s: string, key: string, open: string, close: string, from: nat): Option<string>
    requires key != ""
    decreases |s| - from
  {
    match Find(s, key, from)
    case None => None
    case Some(i) =>
      var found := Enclosed(s, open, close, SkipSpace(s, i + |key|));
      if found.Some? then found else AfterKey(s, key, open, close, i + 1)
  }

  /** The first match of `open([\s\S]*?)close`: one exists at all only if the first `open` has a `close`. */
  function FirstEnclosed(s: string, open: string, close: string): Option<string> {
    match Find(s, open, 0)
    case None => None
    case Some(i) => Enclosed(s, open, close, i)
  }

  function ProgramFromPlist(xml: string): Option<string> {
    var single := AfterKey(xml, PROGRAM, "<string>", "</string>", 0);
    if single.Some? then Some(Trim(UnescapeXml(single.value)))
    else
      match AfterKey(xml, ARGUMENTS, "<array>", "</array>", 0)
      case None => None
      case Some(args) =>
        match FirstEnclosed(args, "<string>", "</string>")
        case None => None
        case Some(first) => Some(Trim(UnescapeXml(first)))
  }

  // ---- Tags do not appear by accident ------------------------------------------------------------------

  /** Whatever follows `x`, no `pat` starts inside it. */
  ghost predicate Clear(x: string, pat: string) {
    forall y: string, i: nat :: i < |x| ==> !Occurs(x + y, pat, i)
  }

  /** A piece that cannot be mistaken for the beginning of `pat`. */
  predicate Differs(p: Piece, pat: string) {
    match p
    case Plain(_) => true
    case Tag(body) => exists k :: 1 <= k < |pat| && k <= |body| && body[k - 1] != pat[k]
  }

  lemma ClearPiece(p: Piece, pat: string)
    requires pat != "" && pat[0] == '<' && Differs(p, pat)
    ensures Clear(Render(p), pat)
  {
    var x := Render(p);
    hide Occurs;
    forall y: string, i: nat | i < |x| ensures !Occurs(x + y, pat, i) {
      assert (x + y)[i] == x[i];
      assert i > 0 || p.Plain? ==> x[i] != '<';
      if i == 0 && p.Tag? {
        var k :| 1 <= k < |pat| && k <= |p.body| && p.body[k - 1] != pat[k];
        PartsAt(x + y, pat, 0, k);
      } else {
        PartsAt(x + y, pat, i, 0);
      }
    }
  }

  lemma ClearConcat(a: string, b: string, pat: string)
    requires Clear(a, pat) && Clear(b, pat)
    ensures Clear(a + b, pat)
  {
    forall y: string, i: nat | i < |a + b| ensures !Occurs(a + b + y, pat, i) {
      assert a + b + y == a + (b + y);
      if i >= |a| { OccursShifted(a, b + y, pat, i - |a|); }
    }
  }

  lemma {:induction false} ClearFlatten(pieces: seq<Piece>, pat: string)
    requires pat != "" && pat[0] == '<' && forall p :: p in pieces ==> Differs(p, pat)
    ensures Clear(Flatten(pieces), pat)
  {
    if pieces != [] {
      assert pieces[0] in pieces && forall p :: p in pieces[1..] ==> p in pieces;
      ClearPiece(pieces[0], pat);
      ClearFlatten(pieces[1..], pat);
      ClearConcat(Render(pieces[0]), Flatten(pieces[1..]), pat);
    }
  }

  lemma FindBehind(x: string, y: string, pat: string)
    requires Clear(x, pat)
    ensures Find(x + y, pat, 0) == match Find(y, pat, 0) case None => None case Some(i) => Some(|x| + i)
  {
    hide Find, Occurs;
    forall i: nat | |x| <= i ensures Occurs(x + y, pat, i) <==> Occurs(y, pat, i - |x|) {
      OccursShifted(x, y, pat, i - |x|);
    }
    var here, there := Find(x + y, pat, 0), Find(y, pat, 0);
    if there.Some? { assert Occurs(x + y, pat, |x| + there.value); }
    if here.Some? { assert Occurs(y, pat, here.value - |x|); }
  }

  // ---- The rendered document ------------------------------------------------------------------------------

  lemma TagDiffers(body: Untagged, pat: string, k: nat)
    requires 1 <= k < |pat| && k <= |body| && body[k - 1] != pat[k]
    ensures Differs(Tag(body), pat)
  {
  }

  ghost predicate AllDiffer(pieces: seq<Piece>, pat: string) { forall p :: p in pieces ==> Differs(p, pat) }

  lemma BeforeDiffers(name: string, pat: string)
    requires pat == PROGRAM || pat == ARGUMENTS
    ensures AllDiffer(Before(name), pat)
  {
    assert AllDiffer(DECLARATION + DOCTYPE + SYSTEM_ID, pat) by { HeaderDiffers(pat); }
    LabelKeyDiffers(pat);
    StringNodeDiffers(name, "\n    ", pat);
  }

  lemma HeaderDiffers(pat: string)
    requires pat == PROGRAM || pat == ARGUMENTS
    ensures AllDiffer(DECLARATION, pat) && AllDiffer(DOCTYPE, pat) && AllDiffer(SYSTEM_ID, pat)
  {
    assert pat[1] == 'k';
    TagDiffers(DECLARATION[0].body, pat, 1);
    TagDiffers(DOCTYPE[0].body, pat, 1);
  }

  lemma LabelKeyDiffers(pat: string)
    requires pat == PROGRAM || pat == ARGUMENTS
    ensures AllDiffer(LABEL_KEY, pat)
  {
    assert pat[1] == 'k' && pat[5] == 'P';
    TagDiffers(LABEL_KEY[0].body, pat, 1);
    TagDiffers(LABEL_KEY[1].body, pat, 1);
    TagDiffers(LABEL_KEY[2].body, pat, 5);
    TagDiffers(LABEL_KEY[3].body, pat, 1);
  }

  lemma StringNodeDiffers(value: string, after: Untagged, pat: string)
    requires pat == PROGRAM || pat == ARGUMENTS || pat == "</array>"
    ensures AllDiffer(StringNode(value, after), pat)
  {
    assert pat[1] == 'k' || (pat[1] == '/' && pat[2] == 'a');
    TagDiffers("string>", pat, 1);
    var close: Untagged := "/string>" + after;
    assert close[0] == '/' && close[1] == 's';
    TagDiffers(close, pat, if pat[1] == 'k' then 1 else 2);
  }

  /** `at[i]` is where piece `i` parts from the pattern. */
  lemma ListDiffers(pieces: seq<Piece>, pat: string, at: seq<nat>)
    requires |at| == |pieces|
    requires forall i :: 0 <= i < |pieces| ==> pieces[i].Tag? && 1 <= at[i] < |pat| && at[i] <= |pieces[i].body|
    requires forall i :: 0 <= i < |pieces| ==> pieces[i].body[at[i] - 1] != pat[at[i]]
    ensures AllDiffer(pieces, pat)
  {
  }

  lemma RunAtLoadDiffers()
    ensures AllDiffer(RUN_AT_LOAD, PROGRAM)
  {
    ListDiffers(RUN_AT_LOAD, PROGRAM, [1, 5, 1, 1]);
  }

  lemma KeepAliveDiffers()
    ensures AllDiffer(KEEP_ALIVE, PROGRAM)
  {
    ListDiffers(KEEP_ALIVE, PROGRAM, [5, 1, 1, 5, 1]);
  }

  lemma ThrottleDiffers()
    ensures AllDiffer(THROTTLE, PROGRAM)
  {
    ListDiffers(THROTTLE, PROGRAM, [1, 1, 5, 1]);
  }

  lemma StandardOutDiffers()
    ensures AllDiffer(STANDARD_OUT, PROGRAM)
  {
    ListDiffers(STANDARD_OUT, PROGRAM, [1, 1, 5, 1]);
  }

  lemma ClosingDiffers()
    ensures AllDiffer(STANDARD_ERROR, PROGRAM) && AllDiffer(CLOSING, PROGRAM)
  {
    ListDiffers(STANDARD_ERROR, PROGRAM, [5, 1]);
    ListDiffers(CLOSING, PROGRAM, [1, 1]);
  }

  lemma AfterDiffers(logPath: string)
    ensures AllDiffer(After(logPath), PROGRAM)
  {
    hide Differs, StringNode;
    RunAtLoadDiffers();
    KeepAliveDiffers();
    ThrottleDiffers();
    StandardOutDiffers();
    ClosingDiffers();
    StringNodeDiffers(logPath, "\n    ", PROGRAM);
    StringNodeDiffers(logPath, "\n  ", PROGRAM);
  }

  lemma ArgumentsDiffer(daemonBin: string, socketPath: string, pat: string)
    requires pat == PROGRAM || pat == ARGUMENTS || pat == "</array>"
    ensures AllDiffer(Arguments(daemonBin, socketPath), pat)
  {
    hide StringNode;
    StringNodeDiffers(daemonBin, INDENT, pat);
    StringNodeDiffers("--socket-path", INDENT, pat);
    StringNodeDiffers(socketPath, "\n    ", pat);
  }

  lemma NothingInEmpty(pat: string)
    requires pat != ""
    ensures Find("", pat, 0).None?
  {
  }

  /** There is no `Program` key, so the parser goes on to the argument list. */
  lemma NoProgramKey(name: string, daemonBin: string, socketPath: string, logPath: string)
    ensures Find(LaunchdPlist(name, daemonBin, socketPath, logPath), PROGRAM, 0).None?
  {
    hide Find, Differs, Before, Arguments, After;
    BeforeDiffers(name, PROGRAM);
    ArgumentsDiffer(daemonBin, socketPath, PROGRAM);
    AfterDiffers(logPath);
    ClearFlatten(Before(name), PROGRAM);
    ClearFlatten(Arguments(daemonBin, socketPath), PROGRAM);
    ClearFlatten(After(logPath), PROGRAM);
    FixedTagsClear();
    SixParts(Flatten(Before(name)), ARGUMENTS, "\n    ", "<array>",
             Flatten(Arguments(daemonBin, socketPath)), Flatten(After(logPath)), PROGRAM);
  }

  lemma SixParts(a: string, b: string, c: string, d: string, e: string, f: string, pat: string)
    requires pat != "" && Clear(a, pat) && Clear(b, pat) && Clear(c, pat) && Clear(d, pat) && Clear(e, pat)
      && Clear(f, pat)
    ensures Find(a + (b + (c + (d + (e + f)))), pat, 0).None?
  {
    hide Find, Clear;
    FindBehind(a, b + (c + (d + (e + f))), pat);
    FindBehind(b, c + (d + (e + f)), pat);
    FindBehind(c, d + (e + f), pat);
    FindBehind(d, e + f, pat);
    FindBehind(e, f, pat);
    assert f + "" == f;
    FindBehind(f, "", pat);
    NothingInEmpty(pat);
  }

  lemma TagClear(text: string, body: Untagged, pat: string, k: nat)
    requires text == "<" + body && pat != "" && pat[0] == '<'
    requires 1 <= k < |pat| && k <= |body| && body[k - 1] != pat[k]
    ensures Clear(text, pat)
  {
    ClearPiece(Tag(body), pat);
  }

  lemma FixedTagsClear()
    ensures Clear(ARGUMENTS, PROGRAM) && Clear("\n    ", PROGRAM) && Clear("<array>", PROGRAM)
  {
    ArgumentsKeyClear();
    ClearPiece(Plain("\n    "), PROGRAM);
    TagClear("<array>", "array>", PROGRAM, 1);
  }

  lemma ArgumentsKeyClear()
    ensures Clear(ARGUMENTS, PROGRAM)
  {
    hide Clear;
    TagClear("<key>ProgramArguments", "key>ProgramArguments", PROGRAM, 12);
    TagClear("</key>", "/key>", PROGRAM, 1);
    ClearConcat("<key>ProgramArguments", "</key>", PROGRAM);
    assert "<key>ProgramArguments" + "</key>" == ARGUMENTS;
  }

  // ---- The argument list -----------------------------------------------------------------------------------

  lemma {:induction false} SkipsTo(s: string, i: nat, j: nat)
    requires i <= j < |s| && !IsSpace(s[j]) && forall k :: i <= k < j ==> IsSpace(s[k])
    ensures SkipSpace(s, i) == j
    decreases j - i
  {
    if i < j { SkipsTo(s, i + 1, j); }
  }

  lemma GapSkipped(x: string, gap: string, y: string)
    requires y != "" && !IsSpace(y[0]) && forall c :: c in gap ==> IsSpace(c)
    ensures SkipSpace(x + (gap + y), |x|) == |x| + |gap|
  {
    var s := x + (gap + y);
    assert forall k :: 0 <= k < |gap| ==> s[|x| + k] == gap[k];
    SkipsTo(s, |x|, |x| + |gap|);
  }

  lemma KeyFound(x: string, key: string, y: string)
    requires Clear(x, key)
    ensures Find(x + (key + y), key, 0) == Some(|x|)
  {
    hide Find, Clear;
    FindBehind(x, key + y, key);
    Middle([], key, y);
    assert [] + (key + y) == key + y;
    FindIs(key + y, key, 0, 0);
  }

  lemma EnclosedAt(x: string, open: string, body: string, close: string, rest: string)
    requires Find(body + rest, close, 0) == Some(|body|)
    ensures Enclosed(x + (open + (body + rest)), open, close, |x|) == Some(body)
  {
    hide Find;
    var s := x + (open + (body + rest));
    Middle(x, open, body + rest);
    Regroup(x, open, body + rest);
    FindShifted(x + open, body + rest, close, 0);
    Regroup(x + open, body, rest);
    Middle(x + open, body, rest);
  }

  /** The first match of `key\s*open...close`, where the key stands behind text it cannot start in. */
  lemma KeyMatched(x: string, key: string, gap: string, open: string, body: string, close: string, rest: string)
    requires key != "" && open != "" && Clear(x, key)
    requires (forall c :: c in gap ==> IsSpace(c)) && !IsSpace(open[0])
    requires Find(body + rest, close, 0) == Some(|body|)
    ensures AfterKey(x + (key + (gap + (open + (body + rest)))), key, open, close, 0) == Some(body)
  {
    hide Find, Clear, Enclosed, SkipSpace;
    var fromOpen := open + (body + rest);
    KeyFound(x, key, gap + fromOpen);
    Regroup(x, key, gap + fromOpen);
    GapSkipped(x + key, gap, fromOpen);
    Regroup(x + key, gap, fromOpen);
    EnclosedAt(x + key + gap, open, body, close, rest);
  }

  /** The first string of the argument list is the program. */
  lemma FirstArgument(daemonBin: string, socketPath: string)
    ensures FirstEnclosed(Flatten(Arguments(daemonBin, socketPath)), "<string>", "</string>")
      == Some(EscapeXml(daemonBin))
  {
    hide Find, EscapeXml, LaterNodes, Clear;
    var value, later := EscapeXml(daemonBin), Flatten(LaterNodes(socketPath));
    FirstRendered(daemonBin);
    FlattenFour(FirstNode(daemonBin), LaterNodes(socketPath));
    EscapedHasNoTag(daemonBin);
    FirstString(INDENT, value, INDENT + later);
    Regroup("</string>", INDENT, later);
  }

  lemma FirstRendered(daemonBin: string)
    ensures var first := FirstNode(daemonBin);
      && |first| == 4 && Render(first[0]) == INDENT && Render(first[1]) == "<string>"
      && Render(first[2]) == EscapeXml(daemonBin) && Render(first[3]) == "</string>" + INDENT
  {
    hide EscapeXml;
    assert "<" + ("/string>" + INDENT) == "</string>" + INDENT;
  }

  lemma FirstString(before: Untagged, value: Untagged, rest: string)
    ensures FirstEnclosed(before + ("<string>" + (value + ("</string>" + rest))), "<string>", "</string>")
      == Some(value)
  {
    hide Find, Clear;
    ClearPiece(Plain(before), "<string>");
    KeyFound(before, "<string>", value + ("</string>" + rest));
    ClearPiece(Plain(value), "</string>");
    KeyFound(value, "</string>", rest);
    EnclosedAt(before, "<string>", value, "</string>", "</string>" + rest);
  }

  lemma FlattenFour(first: seq<Piece>, later: seq<Piece>)
    requires |first| == 4
    ensures Flatten(first + later)
      == Render(first[0]) + (Render(first[1]) + (Render(first[2]) + (Render(first[3]) + Flatten(later))))
  {
    var s := first + later;
    assert s[1..][0] == first[1] && s[1..][1..] == s[2..] && s[2..][1..] == s[3..] && s[3..][1..] == later;
    assert Flatten(s[3..]) == Render(first[3]) + Flatten(later);
    assert Flatten(s[2..]) == Render(first[2]) + Flatten(s[3..]);
  }

  /** The array ends where the argument list does: no argument can close it early. */
  lemma ArrayEnds(daemonBin: string, socketPath: string, logPath: string)
    ensures var args := Flatten(Arguments(daemonBin, socketPath));
      Find(args + Flatten(After(logPath)), "</array>", 0) == Some(|args|)
  {
    hide Find, Arguments, Differs, Clear;
    ArgumentsDiffer(daemonBin, socketPath, "</array>");
    ClearFlatten(Arguments(daemonBin, socketPath), "</array>");
    AfterStarts(logPath);
    var after := Flatten(After(logPath));
    KeyFound(Flatten(Arguments(daemonBin, socketPath)), "</array>", after[8..]);
  }

  lemma AfterStarts(logPath: string)
    ensures var after := Flatten(After(logPath)); |after| >= 8 && after == "</array>" + after[8..]
  {
    hide StringNode;
    var all := After(logPath);
    assert all[0] == RUN_AT_LOAD[0];
    assert Render(RUN_AT_LOAD[0]) == "</array>\n    ";
  }

  /** Main result: the program read from a rendered property list is the program it was rendered with,
      trimmed, whatever the label and the paths are. */
  lemma ProgramReadBack(name: string, daemonBin: string, socketPath: string, logPath: string)
    ensures ProgramFromPlist(LaunchdPlist(name, daemonBin, socketPath, logPath)) == Some(Trim(daemonBin))
  {
    hide Find, Before, Arguments, After, FirstEnclosed, EscapeXml, UnescapeXml, Trim, Clear, Differs;
    NoProgramKey(name, daemonBin, socketPath, logPath);
    BeforeDiffers(name, ARGUMENTS);
    ClearFlatten(Before(name), ARGUMENTS);
    ArrayEnds(daemonBin, socketPath, logPath);
    KeyMatched(Flatten(Before(name)), ARGUMENTS, "\n    ", "<array>",
               Flatten(Arguments(daemonBin, socketPath)), "</array>", Flatten(After(logPath)));
    FirstArgument(daemonBin, socketPath);
    UnescapeEscape(daemonBin);
  }

  // ---- The loaded job ----------------------------------------------------------------------------------------

  predicate LineBreak(c: char) { c == '\n' || c == '\r' || c == '\U{2028}' || c == '\U{2029}' }

  /** `.*` */
  function LineRest(s: string): string { if s == "" || LineBreak(s[0]) then "" else [s[0]] + LineRest(s[1..]) }

  const PROGRAM_LINE := "program = "

  /** `\s*program = (.*)` exactly at `i`. */
  function ProgramLineAt(s: string, i: nat): Option<string>
    requires i <= |s|
  {
    var j := SkipSpace(s, i);
    if Occurs(s, PROGRAM_LINE, j) then Some(LineRest(s[j + |PROGRAM_LINE|..])) else None
  }

  /** The first match of `(?:^|\n)\s*program = (.*)` at or after `from`. */
  function ProgramLine(s: string, from: nat): Option<string>
    requires from <= |s|
    decreases |s| - from
  {
    if from == 0 && ProgramLineAt(s, 0).Some? then ProgramLineAt(s, 0)
    else if from == |s| then None
    else if s[from] == '\n' && ProgramLineAt(s, from + 1).Some? then ProgramLineAt(s, from + 1)
    else ProgramLine(s, from + 1)
  }

  function LoadedProgram(printed: string): Option<string> {
    match ProgramLine(printed, 0)
    case None => None
    case Some(line) => Some(Trim(line))
  }

  function NeedsReregister(alreadyLoaded: bool, loaded: Option<string>, desired: Option<string>): bool {
    if !alreadyLoaded then false
    else if loaded.None? || loaded.value == "" then true
    else loaded.value != (if desired.Some? then desired.value else "")
  }

  /** What `launchctl print` says of a job: some lines, the program's line, and more lines. */
  function Printed(before: string, program: string, after: string): string {
    before + ("\n\t" + (PROGRAM_LINE + (program + ("\n" + after))))
  }

  lemma {:induction false} WholeLine(line: string, rest: string)
    requires forall c :: c in line ==> !LineBreak(c)
    ensures LineRest(line + ("\n" + rest)) == line
  {
    if line != "" {
      assert line[0] in line && forall c :: c in line[1..] ==> c in line;
      assert (line + ("\n" + rest))[1..] == line[1..] + ("\n" + rest);
      WholeLine(line[1..], rest);
    }
  }

  lemma PrintedLine(before: string, program: string, after: string)
    requires forall c :: c in program ==> !LineBreak(c)
    ensures ProgramLineAt(Printed(before, program, after), |before| + 1) == Some(program)
  {
    hide SkipSpace, LineRest, Find;
    var s, tail := Printed(before, program, after), PROGRAM_LINE + (program + ("\n" + after));
    assert s == (before + "\n") + ("\t" + tail) by { Regroup(before, "\n", "\t" + tail); }
    GapSkipped(before + "\n", "\t", tail);
    assert s == (before + "\n\t") + tail;
    Middle(before + "\n\t", PROGRAM_LINE, program + ("\n" + after));
    WholeLine(program, after);
  }

  predicate LineStart(text: string, i: int) { 0 <= i <= |text| && (i == 0 || text[i - 1] == '\n') }

  /** No line of the text starts, behind white space, with the words that announce the program. */
  ghost predicate Unannounced(text: string) {
    forall i :: LineStart(text, i) ==> !Occurs(text, PROGRAM_LINE, SkipSpace(text, i))
  }

  /** A match at an earlier line start can only be the printed line itself. */
  lemma EarlierStart(before: string, program: string, after: string, i: nat)
    requires LineStart(before, i) && Unannounced(before)
    requires forall c :: c in program ==> !LineBreak(c)
    ensures var found := ProgramLineAt(Printed(before, program, after), i); found.None? || found == Some(program)
  {
    hide Find, SkipSpace, IsSpace;
    var s, tail := Printed(before, program, after), PROGRAM_LINE + (program + ("\n" + after));
    var j := SkipSpace(s, i);
    assert s == before + ("\n\t" + tail) == (before + "\n\t") + tail;
    assert s[|before|] == '\n' && s[|before| + 1] == '\t' && s[|before| + 2] == 'p';
    if j + |PROGRAM_LINE| <= |before| {
      assert forall k :: i <= k <= j ==> before[k] == s[k];
      SkipsTo(before, i, j);
      OccursInFirst(before, "\n\t" + tail, PROGRAM_LINE, j);
    } else if j < |before| {
      NoBreakInside(|before| - j);
      PartsAt(s, PROGRAM_LINE, j, |before| - j);
    } else {
      SpacesHere();
      assert j == |before| + 2;
      Middle(before + "\n\t", PROGRAM_LINE, program + ("\n" + after));
      WholeLine(program, after);
    }
  }

  lemma SpacesHere()
    ensures IsSpace('\n') && IsSpace('\t') && !IsSpace('p')
  {
  }

  lemma NoBreakInside(k: nat)
    requires k < |PROGRAM_LINE|
    ensures PROGRAM_LINE[k] != '\n'
  {
  }

  /** The program line is found, provided no line before it starts with its words. */
  lemma {:induction false} LineFound(before: string, program: string, after: string, from: nat)
    requires from <= |before| && Unannounced(before)
    requires forall c :: c in program ==> !LineBreak(c)
    ensures ProgramLine(Printed(before, program, after), from) == Some(program)
    decreases |before| - from
  {
    hide Find, ProgramLineAt, Unannounced;
    var s := Printed(before, program, after);
    PrintedLine(before, program, after);
    assert s[|before|] == '\n';
    if from == 0 { EarlierStart(before, program, after, 0); }
    if from < |before| {
      assert s[from] == before[from];
      if before[from] == '\n' { EarlierStart(before, program, after, from + 1); }
      LineFound(before, program, after, from + 1);
    }
  }

  /** A text no line of which starts with the words names no program. */
  lemma {:induction false} NoProgramLine(printed: string, from: nat)
    requires from <= |printed| && Unannounced(printed)
    ensures ProgramLine(printed, from).None?
    decreases |printed| - from
  {
    hide SkipSpace, Occurs;
    assert LineStart(printed, 0);
    if from < |printed| {
      if printed[from] == '\n' { assert LineStart(printed, from + 1); }
      NoProgramLine(printed, from + 1);
    }
  }

  /** Main result: a loaded job needs to be registered again exactly when the program it reports is blank, or is
      not the one the property list was rendered with; and always when either cannot be read. */
  lemma ReregisterExactly(before: string, program: string, after: string, name: string, wanted: string,
                          socketPath: string, logPath: string)
    requires Unannounced(before) && forall c :: c in program ==> !LineBreak(c)
    ensures var printed := Printed(before, program, after);
      var file := ProgramFromPlist(LaunchdPlist(name, wanted, socketPath, logPath));
      && (NeedsReregister(true, LoadedProgram(printed), file) <==> Trim(program) == "" || Trim(program) != Trim(wanted))
      && NeedsReregister(true, LoadedProgram(printed), None)
      && NeedsReregister(true, LoadedProgram(before), file)
      && !NeedsReregister(false, LoadedProgram(printed), file)
  {
    hide Find, Printed, LaunchdPlist, Trim, Unannounced;
    LineFound(before, program, after, 0);
    NoProgramLine(before, 0);
    ProgramReadBack(name, wanted, socketPath, logPath);
  }

  /** So a loaded job that reports the program the list was rendered with is left alone, unless it is blank. */
  lemma MatchingJobIsKept(before: string, program: string, after: string, name: string, socketPath: string,
                          logPath: string)
    requires Unannounced(before) && forall c :: c in program ==> !LineBreak(c)
    ensures NeedsReregister(true, LoadedProgram(Printed(before, program, after)),
                            ProgramFromPlist(LaunchdPlist(name, program, socketPath, logPath)))
      <==> Trim(program) == ""
  {
    hide NeedsReregister, Printed, LaunchdPlist, Trim, Unannounced;
    ReregisterExactly(before, program, after, name, program, socketPath, logPath);
  }

  /** The same over what was read, whatever the texts: two equal programs, and not the empty one. */
  lemma KeptExactly(alreadyLoaded: bool, loaded: Option<string>, desired: Option<string>)
    ensures alreadyLoaded && !NeedsReregister(alreadyLoaded, loaded, desired)
      <==> alreadyLoaded && loaded.Some? && loaded.value != "" && desired == loaded
  {
  }
}
