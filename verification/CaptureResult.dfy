/** Assembling a capture: every cap that drops something says so, and says how much. */
module CaptureResult {
  import opened Options

  const MAX_THREADS: nat := 64
  const MAX_LOCALS: nat := 16

  /** Kept rows and how many were dropped. */
  function KeepCapped<T>(items: seq<T>, limit: nat): (seq<T>, nat) {
    if |items| <= limit then (items, 0) else (items[..limit], |items| - limit)
  }

  /** `localsTotal` and `localsTruncated` are None when the frame's locals were never read. */
  datatype Frame<T> = Frame(locals: seq<T>, localsTotal: Option<nat>, localsTruncated: Option<nat>)
  datatype Thread<T> = Thread(frames: seq<Frame<T>>, framesTotal: nat, framesTruncated: nat)

  datatype Truncated = Truncated(threads: Option<(nat, nat)>, frames: Option<nat>, locals: Option<nat>)
  datatype Result<T> = Result(threads: seq<Thread<T>>, truncated: Truncated)

  /** What was read from the debugger: per thread its readable frames with their locals, if those were
      read, and the frame count the target reports, if it could be read. */
  datatype ReadThread<T> = ReadThread(frames: seq<Option<seq<T>>>, reported: Option<nat>)

  function FrameRecord<T>(locals: Option<seq<T>>): Frame<T> {
    match locals
    case None => Frame([], None, None)
    case Some(seen) =>
      var (kept, dropped) := KeepCapped(seen, MAX_LOCALS);
      Frame(kept, Some(|seen|), Some(dropped))
  }

  function ThreadEntry<T>(read: ReadThread<T>): Thread<T> {
    var frames := seq(|read.frames|, i requires 0 <= i < |read.frames| => FrameRecord(read.frames[i]));
    var total := if read.reported.None? then |frames| else read.reported.value;
    Thread(frames, total, if total > |frames| then total - |frames| else 0)
  }

  function Count(n: Option<nat>): nat { if n.Some? then n.value else 0 }

  function DroppedLocals<T>(frames: seq<Frame<T>>): nat {
    if frames == [] then 0
    else DroppedLocals(frames[..|frames| - 1]) + Count(frames[|frames| - 1].localsTruncated)
  }

  /** What the per-list caps dropped, over all threads: frames and locals. */
  function Missing<T>(threads: seq<Thread<T>>): (nat, nat) {
    if threads == [] then (0, 0)
    else
      var (frames, locals) := Missing(threads[..|threads| - 1]);
      var last := threads[|threads| - 1];
      (frames + last.framesTruncated, locals + DroppedLocals(last.frames))
  }

  method CompletenessReport<T>(threads: seq<Thread<T>>) returns (frames: nat, locals: nat)
    ensures (frames, locals) == Missing(threads)
  {
    frames, locals := 0, 0;
    for i := 0 to |threads|
      invariant (frames, locals) == Missing(threads[..i])
    {
      var thread := threads[i];
      frames := frames + thread.framesTruncated;
      ghost var before := locals;
      for j := 0 to |thread.frames|
        invariant locals == before + DroppedLocals(thread.frames[..j])
      {
        locals := locals + Count(thread.frames[j].localsTruncated);
        assert thread.frames[..j + 1][..j] == thread.frames[..j];
      }
      assert thread.frames[..|thread.frames|] == thread.frames;
      assert threads[..i + 1][..i] == threads[..i];
    }
    assert threads[..|threads|] == threads;
  }

  function AssembleResult<T>(threads: seq<Thread<T>>): Result<T> {
    var (kept, dropped) := KeepCapped(threads, MAX_THREADS);
    var (frames, locals) := Missing(kept);
    Result(kept, Truncated(
      if dropped > 0 then Some((|kept|, dropped)) else None,
      if frames > 0 then Some(frames) else None,
      if locals > 0 then Some(locals) else None))
  }

  function Capture<T>(input: seq<ReadThread<T>>): Result<T> {
    AssembleResult(seq(|input|, i requires 0 <= i < |input| => ThreadEntry(input[i])))
  }

  // ---- Nothing is lost in silence -----------------------------------------------------------------

  /** Every reported frame and every read local of the thread fits. */
  ghost predicate Whole<T>(read: ReadThread<T>) {
    && (read.reported.Some? ==> read.reported.value <= |read.frames|)
    && (forall f :: f in read.frames && f.Some? ==> |f.value| <= MAX_LOCALS)
  }

  lemma {:induction false} SomeLocalsDropped<T>(frames: seq<Frame<T>>)
    ensures DroppedLocals(frames) == 0 <==> forall f :: f in frames ==> Count(f.localsTruncated) == 0
  {
    if frames != [] {
      SomeLocalsDropped(frames[..|frames| - 1]);
      assert frames == frames[..|frames| - 1] + [frames[|frames| - 1]];
    }
  }

  lemma {:induction false} SomethingMissing<T>(threads: seq<Thread<T>>)
    ensures Missing(threads) == (0, 0)
      <==> forall t :: t in threads ==> t.framesTruncated == 0 && DroppedLocals(t.frames) == 0
  {
    if threads != [] {
      SomethingMissing(threads[..|threads| - 1]);
      assert threads == threads[..|threads| - 1] + [threads[|threads| - 1]];
    }
  }

  lemma WholeEntry<T>(read: ReadThread<T>)
    ensures Whole(read) <==> ThreadEntry(read).framesTruncated == 0 && DroppedLocals(ThreadEntry(read).frames) == 0
  {
    var entry := ThreadEntry(read);
    SomeLocalsDropped(entry.frames);
    assert forall i :: 0 <= i < |read.frames| ==> entry.frames[i] == FrameRecord(read.frames[i]);
    if forall f :: f in entry.frames ==> Count(f.localsTruncated) == 0 {
      forall f | f in read.frames && f.Some? ensures |f.value| <= MAX_LOCALS {
        var i :| 0 <= i < |read.frames| && read.frames[i] == f;
        assert entry.frames[i] in entry.frames;
      }
    }
  }

  /** Main result: `truncated` is empty exactly when no thread, no reported frame of a thread and no read
      local of a frame is missing from the payload. */
  lemma TruncatedExactly<T>(input: seq<ReadThread<T>>)
    ensures Capture(input).truncated == Truncated(None, None, None)
      <==> |input| <= MAX_THREADS && forall r :: r in input ==> Whole(r)
  {
    var threads := seq(|input|, i requires 0 <= i < |input| => ThreadEntry(input[i]));
    SomethingMissing(threads);
    forall r | r in input ensures ThreadEntry(r) in threads {
      var i :| 0 <= i < |input| && input[i] == r;
      assert threads[i] == ThreadEntry(r);
    }
    forall r: ReadThread<T>
      ensures Whole(r) <==> ThreadEntry(r).framesTruncated == 0 && DroppedLocals(ThreadEntry(r).frames) == 0
    {
      WholeEntry(r);
    }
  }

  function Max(a: nat, b: nat): nat { if a < b then b else a }

  /** The kept threads are the first ones, and with the dropped ones they make up the input. */
  lemma ThreadsAddUp<T>(input: seq<ReadThread<T>>)
    ensures var result := Capture(input);
      && |result.threads| + (if result.truncated.threads.Some? then result.truncated.threads.value.1 else 0) == |input|
      && (result.truncated.threads.Some? ==> result.truncated.threads.value.0 == |result.threads| == MAX_THREADS)
      && forall t :: 0 <= t < |result.threads| ==> result.threads[t] == ThreadEntry(input[t])
  {
  }

  /** Every readable frame is there, and every frame the target reports beyond them is counted as dropped;
      a target that reports none, or fewer than were read, has its total taken at its word or from the frames. */
  lemma FramesAddUp<T>(input: seq<ReadThread<T>>, t: nat)
    requires t < |input| && t < MAX_THREADS
    ensures var thread := Capture(input).threads[t]; var read := input[t];
      && |thread.frames| == |read.frames|
      && thread.framesTotal == (if read.reported.Some? then read.reported.value else |read.frames|)
      && |thread.frames| + thread.framesTruncated == Max(thread.framesTotal, |read.frames|)
  {
  }

  /** Of the locals read, the first ones are kept and the rest counted; unread locals are marked unread. */
  lemma LocalsAddUp<T>(input: seq<ReadThread<T>>, t: nat, f: nat)
    requires t < |input| && t < MAX_THREADS && f < |input[t].frames|
    ensures var frame := Capture(input).threads[t].frames[f]; var locals := input[t].frames[f];
      && (frame.localsTotal.None? <==> locals.None?) && (frame.localsTruncated.None? <==> locals.None?)
      && (locals.None? ==> frame.locals == [])
      && (locals.Some? ==>
            && frame.localsTotal == Some(|locals.value|) && frame.locals <= locals.value
            && |frame.locals| + Count(frame.localsTruncated) == |locals.value|)
  {
  }

  // ---- How much is missing, over what was read ----------------------------------------------------------

  /** Sums over a capture's threads, first to last, and over one thread's frames. */
  function Sum<T>(s: seq<T>, f: T -> nat): nat { if s == [] then 0 else f(s[0]) + Sum(s[1..], f) }

  function FramesInAll<T>(read: ReadThread<T>): nat {
    Max(if read.reported.Some? then read.reported.value else 0, |read.frames|)
  }
  function FramesRead<T>(read: ReadThread<T>): nat { |read.frames| }
  function LocalsRead<T>(read: ReadThread<T>): nat { Sum(read.frames, LocalsOf) }
  function LocalsOf<T>(locals: Option<seq<T>>): nat { if locals.Some? then |locals.value| else 0 }
  function LocalsKept<T>(thread: Thread<T>): nat { Sum(thread.frames, (frame: Frame<T>) => |frame.locals|) }

  lemma {:induction false} SumAppend<T>(s: seq<T>, x: T, f: T -> nat)
    ensures Sum(s + [x], f) == Sum(s, f) + f(x)
  {
    if s == [] {
      assert s + [x] == [x] && [x][1..] == [];
    } else {
      assert (s + [x])[1..] == s[1..] + [x];
      SumAppend(s[1..], x, f);
    }
  }

  lemma {:induction false} FrameSums<T>(read: seq<Option<seq<T>>>, frames: seq<Frame<T>>)
    requires |frames| == |read| && forall i :: 0 <= i < |read| ==> frames[i] == FrameRecord(read[i])
    ensures Sum(frames, (frame: Frame<T>) => |frame.locals|) + DroppedLocals(frames) == Sum(read, LocalsOf)
  {
    if read != [] {
      var n := |read| - 1;
      FrameSums(read[..n], frames[..n]);
      SumAppend(read[..n], read[n], LocalsOf);
      SumAppend(frames[..n], frames[n], (frame: Frame<T>) => |frame.locals|);
      assert read == read[..n] + [read[n]] && frames == frames[..n] + [frames[n]];
    }
  }

  lemma {:induction false} ThreadSums<T>(input: seq<ReadThread<T>>, threads: seq<Thread<T>>)
    requires |threads| == |input| && forall i :: 0 <= i < |input| ==> threads[i] == ThreadEntry(input[i])
    ensures Missing(threads).0 + Sum(input, FramesRead) == Sum(input, FramesInAll)
    ensures Missing(threads).1 + Sum(threads, LocalsKept) == Sum(input, LocalsRead)
  {
    if input != [] {
      var n := |input| - 1;
      ThreadSums(input[..n], threads[..n]);
      SumAppend(input[..n], input[n], FramesRead);
      SumAppend(input[..n], input[n], FramesInAll);
      SumAppend(input[..n], input[n], LocalsRead);
      SumAppend(threads[..n], threads[n], LocalsKept);
      FrameSums(input[n].frames, threads[n].frames);
      assert input == input[..n] + [input[n]] && threads == threads[..n] + [threads[n]];
    }
  }

  /** Main result: the counts a payload publishes. Over the first 64 threads, the missing frames are those reported
      or read less those read, and the missing locals are those read less those in the payload. */
  lemma MissingExactly<T>(input: seq<ReadThread<T>>)
    ensures var result := Capture(input);
      var walked := if |input| <= 64 then input else input[..64];
      && Count(result.truncated.frames) + Sum(walked, FramesRead) == Sum(walked, FramesInAll)
      && Count(result.truncated.locals) + Sum(result.threads, LocalsKept) == Sum(walked, LocalsRead)
  {
    hide Missing, ThreadEntry;
    var walked := if |input| <= 64 then input else input[..64];
    ThreadSums(walked, Capture(input).threads);
  }
}
