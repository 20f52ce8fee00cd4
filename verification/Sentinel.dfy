/** The payload channel: one JSON text between two markers, inside any amount of other output. */
module Sentinel {
  import opened Options
  import opened Text

  const BEGIN := "GPBRIDGE<<"
  const END := ">>GPBRIDGE"

  /** A parsed payload. Objects are dictionaries; their members' order is never looked at. */
  datatype Json =
    | Null
    | Bool(b: bool)
    | Number(n: int)
    | Str(s: string)
    | Arr(items: seq<Json>)
    | Obj(members: map<string, Json>)

  /** `json.loads`: None stands for JSONDecodeError. Nothing else is assumed about it. */
  type Parser = string -> Option<Json>

  /** The characters `str.strip` removes. */
  predicate IsSpace(c: char) {
    || '\t' <= c <= '\r' || '\U{1c}' <= c <= ' ' || c == '\U{85}' || c == '\U{a0}' || c == '\U{1680}'
    || '\U{2000}' <= c <= '\U{200a}' || c == '\U{2028}' || c == '\U{2029}' || c == '\U{202f}' || c == '\U{205f}'
    || c == '\U{3000}'
  }

  function StripLeft(s: string): string {
    if s != "" && IsSpace(s[0]) then StripLeft(s[1..]) else s
  }

  function Strip(s: string): string {
    if s != "" && IsSpace(s[|s| - 1]) then Strip(s[..|s| - 1]) else StripLeft(s)
  }

  function Begin(nonce: string): (r: string)
    ensures r != ""
  {
    var n := Strip(nonce);
    if n == "" then BEGIN else "GPBRIDGE<" + n + "<<"
  }

  function Wrap(text: string, nonce: string): string { Begin(nonce) + text + END }

  // ---- The scanner ---------------------------------------------------------------------------

  /** The candidate a begin marker at `start` opens: the text up to the next end marker, if it parses. */
  function CandidateAt(s: string, begin: string, parse: Parser, start: nat): seq<(Json, string)>
    requires start + |begin| <= |s|
  {
    var body := s[start + |begin|..];
    match Find(body, END, 0)
    case None => []
    case Some(end) => if parse(body[..end]).Some? then [(parse(body[..end]).value, body[..end])] else []
  }

  function Candidates(s: string, begin: string, parse: Parser, from: nat): seq<(Json, string)>
    requires begin != ""
    decreases |s| - from
  {
    match Find(s, begin, from)
    case None => []
    case Some(start) => CandidateAt(s, begin, parse, start) + Candidates(s, begin, parse, start + |begin|)
  }

  /** What several parseable pairs under one nonce do to an object payload. */
  function MarkAmbiguous(payload: Json): Json
    requires payload.Obj?
  {
    var marked := payload.members["stdoutAmbiguous" := Bool(true)];
    var errors := if "errors" in marked && marked["errors"].Arr? then marked["errors"].items else [];
    Obj(marked["errors" := Arr(errors + [Str("ambiguous")])])
  }

  function Select(candidates: seq<(Json, string)>, s: string, nonce: string): (Option<Json>, string) {
    if candidates == [] then (None, s)
    else
      var (payload, raw) := candidates[|candidates| - 1];
      if nonce != "" && |candidates| > 1 && payload.Obj? then (Some(MarkAmbiguous(payload)), raw)
      else (Some(payload), raw)
  }

  function Extract(s: string, nonce: string, parse: Parser): (Option<Json>, string) {
    Select(Candidates(s, Begin(nonce), parse, 0), s, nonce)
  }

  method ReadCandidate(s: string, begin: string, parse: Parser, start: nat) returns (found: seq<(Json, string)>)
    requires start + |begin| <= |s|
    ensures found == CandidateAt(s, begin, parse, start)
  {
    var body := s[start + |begin|..];
    var end := Find(body, END, 0);
    if end.Some? {
      var parsed := parse(body[..end.value]);
      if parsed.Some? {
        return [(parsed.value, body[..end.value])];
      }
    }
    found := [];
  }

  /** The loop as the bridge runs it. */
  method ExtractSentinel(s: string, nonce: string, parse: Parser) returns (payload: Option<Json>, raw: string)
    ensures (payload, raw) == Extract(s, nonce, parse)
  {
    hide Begin, Find, CandidateAt, Select;
    var begin := Begin(nonce);
    BeginShape(nonce);
    var candidates := [];
    var start := Find(s, begin, 0);
    var from := 0;
    while start.Some?
      invariant start == Find(s, begin, from)
      invariant candidates + Candidates(s, begin, parse, from) == Candidates(s, begin, parse, 0)
      decreases |s| - from
    {
      var found := ReadCandidate(s, begin, parse, start.value);
      Regroup(candidates, found, Candidates(s, begin, parse, start.value + |begin|));
      candidates := candidates + found;
      from := start.value + |begin|;
      start := Find(s, begin, from);
    }
    assert candidates + [] == candidates;
    var selected := Select(candidates, s, nonce);
    return selected.0, selected.1;
  }

  // ---- Markers ---------------------------------------------------------------------------------

  lemma EndHasNoBorder()
    ensures NoBorder(END)
  {
    forall d | 0 < d < |END| ensures END[d..] != END[..|END| - d] {
      var suffix, prefix := END[d..], END[..|END| - d];
      assert suffix[0] == END[d] && prefix[0] == END[0];
      assert suffix[9 - d] == END[9] && prefix[9 - d] == END[9 - d];
    }
  }

  lemma BeginShape(nonce: string)
    ensures var b := Begin(nonce); |b| >= 10 && b[..9] == "GPBRIDGE<" && b[|b| - 1] == '<' && b[|b| - 2] == '<'
  {
  }

  lemma BeginHasNoBorder(nonce: string)
    requires '<' !in Strip(nonce)
    ensures NoBorder(Begin(nonce))
  {
    hide Strip;
    var b := Begin(nonce);
    forall d | 0 < d < |b| ensures b[d..] != b[..|b| - d] {
      var k := |b| - d;
      var suffix, prefix := b[d..], b[..k];
      assert suffix[0] == b[d] && prefix[0] == b[0];
      assert suffix[k - 1] == b[|b| - 1] && prefix[k - 1] == b[k - 1];
      if k > 1 { assert suffix[k - 2] == b[|b| - 2] && prefix[k - 2] == b[k - 2]; }
    }
  }
}
