/** Folding a trace's observations into a timeline: re-reading one frozen stop is one measurement. */
module Timeline {
  import opened Options

  /** What was read at a sample, and the debugger's stop counter then (None: not readable). */
  datatype Observation<T> = Observation(stopId: Option<int>, scene: T)
  datatype Sample<T> = Sample(index: nat, observation: Observation<T>)

  /** `shortfall` is the caller's note on why sampling stopped, kept when samples are missing. */
  datatype Timeline<T> = Timeline(samples: seq<Sample<T>>, attempts: nat, measured: bool, shortfall: Option<string>)

  function Last<T>(s: seq<T>): T
    requires s != []
  {
    s[|s| - 1]
  }

  predicate Rereads<T>(kept: seq<Observation<T>>, o: Observation<T>) {
    kept != [] && (o.stopId.None? || o.stopId == Last(kept).stopId)
  }

  function Kept<T>(observations: seq<Observation<T>>): seq<Observation<T>> {
    if observations == [] then []
    else
      var kept := Kept(observations[..|observations| - 1]);
      if Rereads(kept, Last(observations)) then kept else kept + [Last(observations)]
  }

  function Numbered<T>(kept: seq<Observation<T>>): seq<Sample<T>> {
    seq(|kept|, i requires 0 <= i < |kept| => Sample(i, kept[i]))
  }

  /** "The stack did not move for N seconds" may be read off a timeline only when this holds. */
  predicate Measured<T>(kept: seq<Observation<T>>, requested: int) {
    kept != [] && !(requested > 1 && |kept| == 1)
  }

  method BuildTimeline<T(==)>(observations: seq<Observation<T>>, requested: int, stopNote: Option<string>)
    returns (timeline: Timeline<T>)
    ensures timeline.samples == Numbered(Kept(observations)) && timeline.attempts == |observations|
    ensures timeline.measured == Measured(Kept(observations), requested)
    ensures timeline.shortfall ==
      if |Kept(observations)| < (if requested > 1 then requested else 1) then stopNote else None
  {
    var samples: seq<Sample<T>> := [];
    for i := 0 to |observations|
      invariant samples == Numbered(Kept(observations[..i]))
    {
      var o := observations[i];
      assert observations[..i + 1][..i] == observations[..i];
      if samples != [] && (o.stopId.None? || o.stopId == samples[|samples| - 1].observation.stopId) {
        continue;
      }
      samples := samples + [Sample(|samples|, o)];
    }
    assert observations[..|observations|] == observations;
    var enough := |samples| >= (if requested > 1 then requested else 1);
    var measured := samples != [] && !(requested > 1 && |samples| == 1);
    timeline := Timeline(samples, |observations|, measured, if enough then None else stopNote);
  }

  // ---- What a timeline is evidence of -----------------------------------------------------------

  /** Every sample but the first comes from a known stop other than the one before it, which may be unknown
      for the first sample. */
  ghost predicate DistinctStops<T>(kept: seq<Observation<T>>) {
    forall i :: 0 < i < |kept| ==> kept[i].stopId.Some? && kept[i].stopId != kept[i - 1].stopId
  }

  lemma {:induction false} KeptStops<T>(observations: seq<Observation<T>>)
    ensures DistinctStops(Kept(observations))
    ensures observations != [] ==> Kept(observations) != [] && Kept(observations)[0] == observations[0]
  {
    if observations != [] { KeptStops(observations[..|observations| - 1]); }
  }

  lemma KeptStep<T>(observations: seq<Observation<T>>)
    requires observations != []
    ensures var before := Kept(observations[..|observations| - 1]); var o := observations[|observations| - 1];
      Kept(observations) == if Rereads(before, o) then before else before + [o]
  {
  }

  /** A timeline of distinct stops is a fixed point: folding again changes nothing. */
  lemma {:induction false} KeptIsStable<T>(kept: seq<Observation<T>>)
    requires DistinctStops(kept)
    ensures Kept(kept) == kept
  {
    if kept != [] {
      var n := |kept| - 1;
      var front := kept[..n];
      KeptIsStable(front);
      hide Kept;
      assert front != [] ==> Last(front) == kept[n - 1];
      assert !Rereads(front, kept[n]);
      KeptStep(kept);
      assert kept == front + [kept[n]];
    }
  }

  ghost predicate MovedOn<T>(observations: seq<Observation<T>>, i: int) {
    0 < i < |observations| && observations[i].stopId.Some? && observations[i].stopId != observations[0].stopId
  }

  lemma {:induction false} SecondSample<T>(observations: seq<Observation<T>>)
    ensures |Kept(observations)| >= 2 <==> exists i :: MovedOn(observations, i)
  {
    if observations != [] {
      var n := |observations| - 1;
      var before := observations[..n];
      SecondSample(before);
      KeptStops(before);
      assert forall i :: i != n ==> (MovedOn(before, i) <==> MovedOn(observations, i));
      if |Kept(before)| >= 2 {
        var i :| MovedOn(before, i);
        assert MovedOn(observations, i);
      } else if n > 0 && |Kept(observations)| >= 2 {
        assert MovedOn(observations, n);
      }
    }
  }

  /** An observation whose stop is known and is not the first one's, where that may be unknown. */
  lemma MeasuredAsMoved<T>(observations: seq<Observation<T>>, requested: int)
    ensures Measured(Kept(observations), requested)
      <==> observations != [] && (requested <= 1 || exists i :: MovedOn(observations, i))
  {
    KeptStops(observations);
    SecondSample(observations);
  }

  /** Two observations from stops that are known to differ. */
  ghost predicate Apart<T>(observations: seq<Observation<T>>, i: int, j: int) {
    && 0 <= i < j < |observations| && observations[i].stopId.Some? && observations[j].stopId.Some?
    && observations[i].stopId != observations[j].stopId
  }

  ghost predicate TwoKnown<T>(observations: seq<Observation<T>>) { exists i, j :: Apart(observations, i, j) }

  /** The first stop is unknown, and all the known ones are one and the same. */
  ghost predicate OneKnownBehindUnknown<T>(observations: seq<Observation<T>>) {
    && observations != [] && observations[0].stopId.None? && !TwoKnown(observations)
    && exists i :: 0 <= i < |observations| && observations[i].stopId.Some?
  }

  /** Main result: several requested samples are reported as measured exactly when two stops are known to
      differ, or one known stop follows a first observation that cannot be told from it. */
  lemma MeasuredExactly<T>(observations: seq<Observation<T>>, requested: int)
    requires requested > 1
    ensures Measured(Kept(observations), requested) <==> TwoKnown(observations) || OneKnownBehindUnknown(observations)
  {
    MeasuredAsMoved(observations, requested);
    if i :| MovedOn(observations, i) {
      if observations[0].stopId.Some? { assert Apart(observations, 0, i); }
    }
    if i, j :| Apart(observations, i, j) {
      if observations[j].stopId != observations[0].stopId {
        assert MovedOn(observations, j);
      } else {
        assert MovedOn(observations, i);
      }
    }
    if OneKnownBehindUnknown(observations) {
      var i :| 0 <= i < |observations| && observations[i].stopId.Some?;
      assert MovedOn(observations, i);
    }
  }

  /** The samples kept are shown to be of different stops exactly when there is one, or the first is known. */
  lemma SamplesApartExactly<T>(observations: seq<Observation<T>>)
    ensures var kept := Kept(observations);
      (forall i, j :: 0 <= i < j < |kept| && j == i + 1 ==> Apart(kept, i, j))
      <==> |kept| <= 1 || observations[0].stopId.Some?
  {
    KeptStops(observations);
    var kept := Kept(observations);
    if |kept| > 1 && observations[0].stopId.None? { assert !Apart(kept, 0, 1); }
  }

  /** Two reads that may be of one frozen stop, reported as a measured series. */
  lemma UnknownFirstStop<T>(x: T, y: T, n: int)
    ensures var seen := [Observation(None, x), Observation(Some(n), y)];
      Kept(seen) == seen && Measured(Kept(seen), 2) && !TwoKnown(seen)
  {
    var seen := [Observation(None, x), Observation(Some(n), y)];
    assert DistinctStops(seen);
    KeptIsStable(seen);
  }

  /** The observation at `i` is dropped: a stop is kept before it, and `i` is unknown or the same stop again. */
  ghost predicate Reread<T>(observations: seq<Observation<T>>, last: int, i: int) {
    && 0 <= last < i < |observations|
    && (observations[i].stopId.None? || observations[i].stopId == observations[last].stopId)
  }

  /** Increasing places of the observations that are kept: the first, and each that the last kept one does not
      account for. */
  ghost predicate KeptAt<T>(observations: seq<Observation<T>>, at: seq<int>) {
    && (observations == [] <==> at == []) && (at != [] ==> at[0] == 0)
    && (forall j :: 0 <= j < |at| ==> 0 <= at[j] < |observations|)
    && (forall j :: 0 < j < |at| ==> at[j - 1] < at[j] && !Reread(observations, at[j - 1], at[j]))
    && (forall j, i :: 0 <= j < |at| && at[j] < i < |observations| && (j + 1 == |at| || i < at[j + 1])
                       ==> Reread(observations, at[j], i))
  }

  lemma KeptLast<T>(observations: seq<Observation<T>>, at: seq<int>)
    requires KeptAt(observations, at)
    ensures at != [] ==> 0 <= at[|at| - 1] < |observations|
  {
  }

  lemma KeptAtStep<T>(observations: seq<Observation<T>>, at: seq<int>)
    requires observations != [] && KeptAt(observations[..|observations| - 1], at)
    ensures var n := |observations| - 1;
      KeptAt(observations, if at != [] && Reread(observations, at[|at| - 1], n) then at else at + [n])
  {
    var n := |observations| - 1;
    var before := observations[..n];
    forall last, i | i < n ensures Reread(before, last, i) <==> Reread(observations, last, i) {}
    hide Reread;
    if !(at != [] && Reread(observations, at[|at| - 1], n)) {
      var all := at + [n];
      assert forall j :: 0 <= j < |at| ==> all[j] == at[j];
    }
  }

  /** Main result: exactly those are kept, in order; every observation between two of them only rereads the
      earlier one. */
  lemma {:induction false} KeptExactly<T>(observations: seq<Observation<T>>) returns (at: seq<int>)
    ensures KeptAt(observations, at) && |Kept(observations)| == |at|
    ensures forall j :: 0 <= j < |at| ==> Kept(observations)[j] == observations[at[j]]
  {
    if observations == [] {
      at := [];
    } else {
      var n := |observations| - 1;
      var before := observations[..n];
      at := KeptExactly(before);
      hide Kept, KeptAt;
      KeptStep(observations);
      KeptLast(before, at);
      assert Rereads(Kept(before), observations[n]) <==> at != [] && Reread(observations, at[|at| - 1], n);
      KeptAtStep(observations, at);
      if !Rereads(Kept(before), observations[n]) { at := at + [n]; }
    }
  }
}
