/** The daemon's line protocol: one JSON object a line, over a stream that arrives in arbitrary pieces. */
module NdjsonClient {
  import opened Options

  type Byte = b: int | 0 <= b < 256
  type Bytes = seq<Byte>

  const NEWLINE: Byte := 10

  /** A line as `json.loads` and the client see it; `Broken` is anything that raises before the id is read. */
  datatype Body<R> = Result(value: R) | Error | Neither
  datatype Frame<R> = Broken | Reply(id: Option<int>, body: Body<R>)
  type Parser<!R> = Bytes -> Frame<R>

  /** What a call comes to: a result, one of three exceptions over a line, or the end of the stream. */
  datatype Outcome<R> = Answered(value: R) | RemoteError | BadFrame | NoResult | StreamEnded

  predicate Space(b: Byte) { b == 32 || 9 <= b <= 13 }
  predicate Blank(line: Bytes) { forall b :: b in line ==> Space(b) }

  function IndexOf(s: Bytes): (r: Option<nat>)
    ensures r.Some? ==> r.value < |s| && s[r.value] == NEWLINE && forall j :: 0 <= j < r.value ==> s[j] != NEWLINE
    ensures r.None? ==> forall j :: 0 <= j < |s| ==> s[j] != NEWLINE
  {
    if s == [] then None
    else if s[0] == NEWLINE then Some(0)
    else match IndexOf(s[1..])
      case None => assert forall j :: 0 < j < |s| ==> s[j] == s[1..][j - 1]; None
      case Some(i) => assert forall j :: 0 < j < |s| ==> s[j] == s[1..][j - 1]; Some(i + 1)
  }

  /** Whether a line ends a call for `id`, and how. */
  function Verdict<R>(line: Bytes, id: int, parse: Parser<R>): Option<Outcome<R>> {
    if Blank(line) then None
    else match parse(line)
      case Broken => Some(BadFrame)
      case Reply(its, body) =>
        if its != Some(id) then None
        else match body
          case Result(value) => Some(Answered(value))
          case Error => Some(RemoteError)
          case Neither => Some(NoResult)
  }

  /** A call on the whole stream at once: its outcome, and the stream after the line that decided it. */
  function Serve<R>(s: Bytes, id: int, parse: Parser<R>): (Outcome<R>, Bytes) {
    match IndexOf(s)
    case None => (StreamEnded, s)
    case Some(i) =>
      var verdict := Verdict(s[..i], id, parse);
      if verdict.Some? then (verdict.value, s[i + 1..]) else Serve(s[i + 1..], id, parse)
  }

  function Concat(chunks: seq<Bytes>): Bytes { if chunks == [] then [] else chunks[0] + Concat(chunks[1..]) }

  lemma {:induction false} FirstNewline(a: Bytes, b: Bytes)
    requires IndexOf(a).Some?
    ensures IndexOf(a + b) == IndexOf(a)
  {
    if a[0] != NEWLINE {
      assert (a + b)[1..] == a[1..] + b;
      FirstNewline(a[1..], b);
    }
  }

  lemma NothingServed<R>(s: Bytes, id: int, parse: Parser<R>)
    requires IndexOf(s).None?
    ensures Serve(s, id, parse) == (StreamEnded, s)
  {
  }

  lemma NextPiece(buffer: Bytes, pieces: seq<Bytes>)
    ensures pieces == [] ==> buffer + Concat(pieces) == buffer
    ensures pieces != [] ==> buffer + Concat(pieces) == buffer + pieces[0] + Concat(pieces[1..])
  {
  }

  /** The daemon's end of the socket: pieces not yet read, none of them empty. */
  class Socket {
    var unread: seq<Bytes>

    constructor (chunks: seq<Bytes>)
      ensures unread == chunks
    {
      unread := chunks;
    }

    /** The next piece; an empty one says that nothing more will come. */
    method Receive() returns (chunk: Bytes)
      modifies this
      ensures old(unread) == [] ==> chunk == [] && unread == []
      ensures old(unread) != [] ==> chunk == old(unread)[0] && unread == old(unread)[1..]
    {
      chunk := [];
      if unread != [] {
        chunk, unread := unread[0], unread[1..];
      }
    }
  }

  class SocketClient {
    const socket: Socket
    var buffer: Bytes
    var nextId: int

    constructor (socket: Socket)
      ensures this.socket == socket && buffer == [] && nextId == 0
    {
      this.socket, buffer, nextId := socket, [], 0;
    }

    /** Main result: the outcome and what is left depend on the stream alone, not on how it was cut. */
    method Call<R(==)>(parse: Parser<R>) returns (outcome: Outcome<R>)
      requires forall i :: 0 <= i < |socket.unread| ==> socket.unread[i] != []
      modifies this, socket
      ensures nextId == old(nextId) + 1
      ensures (outcome, buffer + Concat(socket.unread)) == Serve(old(buffer + Concat(socket.unread)), nextId, parse)
      ensures forall i :: 0 <= i < |socket.unread| ==> socket.unread[i] != []
    {
      hide Serve, Concat, IndexOf;
      nextId := nextId + 1;
      ghost var stream := buffer + Concat(socket.unread);
      while true
        invariant nextId == old(nextId) + 1
        invariant forall i :: 0 <= i < |socket.unread| ==> socket.unread[i] != []
        invariant Serve(buffer + Concat(socket.unread), nextId, parse) == Serve(stream, nextId, parse)
        decreases |socket.unread|
      {
        var done;
        done, outcome := ReadBuffered(parse);
        if done {
          return;
        }
        NextPiece(buffer, socket.unread);
        var chunk := socket.Receive();
        if chunk == [] {
          NothingServed(buffer, nextId, parse);
          return StreamEnded;
        }
        buffer := buffer + chunk;
      }
    }

    /** Takes lines off the buffer until one decides the call or none is complete. */
    method ReadBuffered<R(==)>(parse: Parser<R>) returns (done: bool, outcome: Outcome<R>)
      modifies this`buffer
      ensures var rest := Concat(socket.unread); var served := Serve(old(buffer) + rest, nextId, parse);
        if done then (outcome, buffer + rest) == served
        else served == Serve(buffer + rest, nextId, parse) && IndexOf(buffer).None?
    {
      ghost var rest, start := Concat(socket.unread), buffer;
      var newline := IndexOf(buffer);
      while newline.Some?
        invariant newline == IndexOf(buffer)
        invariant Serve(start + rest, nextId, parse) == Serve(buffer + rest, nextId, parse)
        decreases |buffer|
      {
        var i := newline.value;
        FirstNewline(buffer, rest);
        assert (buffer + rest)[..i] == buffer[..i] && (buffer + rest)[i + 1..] == buffer[i + 1..] + rest;
        var line := buffer[..i];
        buffer := buffer[i + 1..];
        var verdict := Verdict(line, nextId, parse);
        if verdict.Some? {
          return true, verdict.value;
        }
        newline := IndexOf(buffer);
      }
      done, outcome := false, StreamEnded;
    }
  }

  // ---- Splitting the whole stream on newlines -------------------------------------------------------------

  /** The complete lines of a stream. */
  function Lines(s: Bytes): seq<Bytes> {
    match IndexOf(s)
    case None => []
    case Some(i) => [s[..i]] + Lines(s[i + 1..])
  }

  /** What follows the last newline. */
  function Remainder(s: Bytes): Bytes {
    match IndexOf(s)
    case None => s
    case Some(i) => Remainder(s[i + 1..])
  }

  /** Lines written out again, each with its newline. */
  function Joined(lines: seq<Bytes>): Bytes {
    if lines == [] then [] else lines[0] + [NEWLINE] + Joined(lines[1..])
  }

  /** A stream is its lines, each with a newline, and what follows the last one; no newline is left in any. */
  lemma {:induction false} LinesRejoin(s: Bytes)
    ensures Joined(Lines(s)) + Remainder(s) == s
    ensures NEWLINE !in Remainder(s) && forall l :: l in Lines(s) ==> NEWLINE !in l
    decreases |s|
  {
    var newline := IndexOf(s);
    if newline.Some? {
      var i := newline.value;
      LinesRejoin(s[i + 1..]);
      assert Lines(s)[1..] == Lines(s[i + 1..]);
      assert s == s[..i] + [NEWLINE] + s[i + 1..];
    }
  }

  /** The first line that decides a call. */
  function Deciding<R>(lines: seq<Bytes>, id: int, parse: Parser<R>): (r: nat)
    ensures r <= |lines| && (r < |lines| ==> Verdict(lines[r], id, parse).Some?)
    ensures forall i :: 0 <= i < r ==> Verdict(lines[i], id, parse).None?
  {
    if lines == [] || Verdict(lines[0], id, parse).Some? then 0 else Deciding(lines[1..], id, parse) + 1
  }

  /** A line ends a call for `id`: it has something on it, and is no frame at all or a reply with that id. */
  ghost predicate Ends<R>(line: Bytes, id: int, parse: Parser<R>) {
    && (exists b :: b in line && !Space(b))
    && (parse(line).Broken? || parse(line).id == Some(id))
  }

  /** Which lines end a call, and how: over the frame on the line alone. */
  lemma EndsExactly<R>(line: Bytes, id: int, parse: Parser<R>)
    ensures Verdict(line, id, parse).Some? <==> Ends(line, id, parse)
    ensures Ends(line, id, parse) ==>
      var frame := parse(line);
      Verdict(line, id, parse).value
      == if frame.Broken? then BadFrame
         else if frame.body.Result? then Answered(frame.body.value)
         else if frame.body.Error? then RemoteError
         else NoResult
  {
  }

  /** Main result: a call passes over blank lines and replies with another id. It ends at the first line that is
      neither, with that line's frame, and leaves the lines behind it; with no such line it reads everything. */
  lemma CallExactly<R>(s: Bytes, id: int, parse: Parser<R>, n: nat)
    requires n <= |Lines(s)| && forall i :: 0 <= i < n ==> !Ends(Lines(s)[i], id, parse)
    requires n < |Lines(s)| ==> Ends(Lines(s)[n], id, parse)
    ensures var (outcome, rest) := Serve(s, id, parse);
      if n == |Lines(s)| then outcome == StreamEnded && Lines(rest) == []
      else
        var frame := parse(Lines(s)[n]);
        && Lines(rest) == Lines(s)[n + 1..]
        && (outcome == BadFrame <==> frame.Broken?)
        && (outcome.Answered? <==> frame.Reply? && frame.body.Result?)
        && (outcome.Answered? ==> outcome.value == frame.body.value)
        && (outcome == RemoteError <==> frame.Reply? && frame.body.Error?)
        && (outcome == NoResult <==> frame.Reply? && frame.body.Neither?)
  {
    hide Serve, Lines, Verdict, Ends;
    var lines := Lines(s);
    forall i | 0 <= i < |lines| ensures Verdict(lines[i], id, parse).Some? <==> Ends(lines[i], id, parse) {
      EndsExactly(lines[i], id, parse);
    }
    ServeByLines(s, id, parse);
    if n < |lines| { EndsExactly(lines[n], id, parse); }
  }

  /** A call answers with the first non-blank line that carries its id, unless a line before it is no
      frame at all; exactly the lines after the deciding one are left. */
  lemma {:induction false} ServeByLines<R>(s: Bytes, id: int, parse: Parser<R>)
    ensures var lines := Lines(s); var n := Deciding(lines, id, parse); var (outcome, rest) := Serve(s, id, parse);
      && (n < |lines| ==> Some(outcome) == Verdict(lines[n], id, parse) && Lines(rest) == lines[n + 1..])
      && (n == |lines| ==> outcome == StreamEnded && Lines(rest) == [])
      && Remainder(rest) == Remainder(s)
    decreases |s|
  {
    var newline := IndexOf(s);
    if newline.Some? {
      var i := newline.value;
      ServeByLines(s[i + 1..], id, parse);
      assert Lines(s)[1..] == Lines(s[i + 1..]);
    }
  }

  /** Successive calls on the stream, with successive ids. */
  function ServeAll<R>(s: Bytes, id: int, calls: nat, parse: Parser<R>): seq<Outcome<R>>
    decreases calls
  {
    if calls == 0 then []
    else
      var (outcome, rest) := Serve(s, id, parse);
      [outcome] + ServeAll(rest, id + 1, calls - 1, parse)
  }

  function AnswerLines<R>(lines: seq<Bytes>, id: int, calls: nat, parse: Parser<R>): seq<Outcome<R>>
    decreases calls
  {
    if calls == 0 then []
    else
      var n := Deciding(lines, id, parse);
      if n == |lines| then [StreamEnded] + AnswerLines([], id + 1, calls - 1, parse)
      else [Verdict(lines[n], id, parse).value] + AnswerLines(lines[n + 1..], id + 1, calls - 1, parse)
  }

  /** Main result: any number of calls sees the stream as its lines. */
  lemma {:induction false} CallsSeeLines<R>(s: Bytes, id: int, calls: nat, parse: Parser<R>)
    ensures ServeAll(s, id, calls, parse) == AnswerLines(Lines(s), id, calls, parse)
    decreases calls
  {
    if calls > 0 {
      ServeByLines(s, id, parse);
      CallsSeeLines(Serve(s, id, parse).1, id + 1, calls - 1, parse);
    }
  }
}
