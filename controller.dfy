/** The convergence controller behind the `/validate_audio_length` endpoint: measure the
    text once; if it is over the limit, shorten it and measure again, at most twice;
    report one of two result shapes. Every call to a service is recorded, so the
    properties below can speak about how many calls were made and with what. */
module Controller {
  import opened Words
  import opened Services

  /** One call to a service, with what it was given and what it answered. */
  datatype Call =
    | Measured(text: string, duration: real)
    | Shortened(source: string, ratio: real, targetWords: int, output: string)

  /** The two JSON bodies the endpoint answers with. `maxAllowed` is MAX_AUDIO_LENGTH. */
  datatype ValidationResult =
    | Unmodified(text: string, duration: real, maxAllowed: int)
    | Modified(text: string, originalDuration: real, newDuration: real, maxAllowed: int)
  {
    /** The `modified` field of the JSON body. */
    predicate IsModified() { Modified? }
  }

  /** The divisions by zero that escape the handler as a `ZeroDivisionError`. */
  datatype Fault =
    | FirstRatioByZero       // `MAX_AUDIO_LENGTH / actual_duration` with a zero duration
    | ZeroRatioReciprocal    // `1/target_ratio` in the log message, with a zero ratio
    | SecondRatioByZero      // `MAX_AUDIO_LENGTH / new_duration` with a zero duration

  datatype Outcome = Responded(result: ValidationResult) | Raised(fault: Fault)

  /** What one request does: its outcome and the service calls it made, in order. */
  datatype Run = Run(outcome: Outcome, calls: seq<Call>)

  /** Shortening `text` with `ratio` as the n-th shortening of the request. */
  function ShortenCall(b: Backends, n: nat, text: string, ratio: real): Call {
    Shortened(text, ratio, TargetWords(text, ratio), Shorten(b, n, text, ratio))
  }

  /** `validate_audio_length` with the division by zero in its log message at
      line 124 left out; see `Validate` for the handler as written. */
  function ValidateIntended(b: Backends, limit: int, text: string): (r: Run)
    ensures |r.calls| % 2 == 1 && |r.calls| <= 5
    ensures r.calls[0] == Measured(text, MeasureDuration(b, 0, text))
    ensures r.outcome.Responded? ==> r.outcome.result.maxAllowed == limit
    ensures r.outcome != Raised(ZeroRatioReciprocal)
    ensures r.outcome == Raised(FirstRatioByZero) ==>
              limit < 0 && r.calls == [Measured(text, 0.0)]
    ensures r.outcome == Raised(SecondRatioByZero) ==>
              limit < 0 && |r.calls| == 3 && r.calls[2].Measured? && r.calls[2].duration == 0.0
  {
    var d0 := MeasureDuration(b, 0, text);
    var first := [Measured(text, d0)];
    if d0 <= limit as real then
      Run(Responded(Unmodified(text, d0, limit)), first)
    else if d0 == 0.0 then
      Run(Raised(FirstRatioByZero), first)
    else
      var s1 := ShortenCall(b, 0, text, limit as real / d0);
      var d1 := MeasureDuration(b, 1, s1.output);
      var once := first + [s1, Measured(s1.output, d1)];
      if d1 <= limit as real then
        Run(Responded(Modified(s1.output, d0, d1, limit)), once)
      else if d1 == 0.0 then
        Run(Raised(SecondRatioByZero), once)
      else
        var s2 := ShortenCall(b, 1, s1.output, limit as real / d1);
        var d2 := MeasureDuration(b, 2, s2.output);
        Run(Responded(Modified(s2.output, d0, d2, limit)), once + [s2, Measured(s2.output, d2)])
  }

  /** `validate_audio_length` as written: after computing the first ratio it formats
      `1/target_ratio` into a log message, which raises when the ratio is zero. */
  function Validate(b: Backends, limit: int, text: string): (r: Run)
    ensures |r.calls| % 2 == 1 && |r.calls| <= 5
    ensures r.calls[0] == Measured(text, MeasureDuration(b, 0, text))
    ensures r.outcome.Responded? ==> r.outcome.result.maxAllowed == limit
    ensures r.outcome == Raised(ZeroRatioReciprocal) <==>
              limit == 0 && MeasureDuration(b, 0, text) > 0.0
    ensures r.outcome == Raised(ZeroRatioReciprocal) ==> |r.calls| == 1
    ensures r.outcome == Raised(SecondRatioByZero) ==>
              limit < 0 && |r.calls| == 3 && r.calls[2].Measured? && r.calls[2].duration == 0.0
  {
    var d0 := MeasureDuration(b, 0, text);
    if d0 > limit as real && d0 != 0.0 && limit as real / d0 == 0.0 then
      Run(Raised(ZeroRatioReciprocal), [Measured(text, d0)])
    else
      ValidateIntended(b, limit, text)
  }

  // ---------------------------------------------------------------------------
  // Specification of a request's calls.

  /** The number of shortenings among `calls`. */
  function Shortenings(calls: seq<Call>): nat {
    if calls == [] then 0
    else Shortenings(calls[..|calls| - 1]) + (if calls[|calls| - 1].Shortened? then 1 else 0)
  }

  /** The number of measurements among `calls`. */
  function Measurements(calls: seq<Call>): nat {
    if calls == [] then 0
    else Measurements(calls[..|calls| - 1]) + (if calls[|calls| - 1].Measured? then 1 else 0)
  }

  /** A shortening step at odd position `i`: it rewrites the text measured just before,
      only because that measurement was over the limit, with the ratio
      `limit / measurement`, and the next call measures exactly what it produced. */
  predicate ShorteningStep(calls: seq<Call>, limit: int, i: nat)
    requires 0 < i < |calls| - 1
  {
    && calls[i - 1].Measured? && calls[i].Shortened? && calls[i + 1].Measured?
    && calls[i - 1].duration > limit as real
    && calls[i - 1].duration != 0.0
    && calls[i].source == calls[i - 1].text
    && calls[i].ratio == limit as real / calls[i - 1].duration
    && calls[i].targetWords == TargetWords(calls[i].source, calls[i].ratio)
    && calls[i + 1].text == calls[i].output
  }

  /** The calls of a request alternate measurement, shortening, measurement, ...,
      beginning and ending with a measurement, and every shortening is a
      `ShorteningStep`. */
  predicate Chained(calls: seq<Call>, limit: int) {
    && |calls| % 2 == 1
    && (forall i :: 0 <= i < |calls| ==> (calls[i].Measured? <==> i % 2 == 0))
    && (forall i :: 0 < i < |calls| - 1 && i % 2 == 1 ==> ShorteningStep(calls, limit, i))
  }

  /** Each call is the answer of the service with the right call number: the k-th
      measurement is `MeasureDuration(b, k, _)`, the k-th shortening `Shorten(b, k, _, _)`. */
  predicate AnsweredBy(calls: seq<Call>, b: Backends) {
    forall i :: 0 <= i < |calls| ==>
      if calls[i].Measured? then
        calls[i].duration == MeasureDuration(b, i / 2, calls[i].text)
      else
        calls[i].output == Shorten(b, i / 2, calls[i].source, calls[i].ratio)
  }

  // ---------------------------------------------------------------------------
  // Lemmas about the calls of a request.

  /** In a chain, the shortenings are the calls between measurements. */
  lemma {:induction false} ChainedCounts(calls: seq<Call>, limit: int)
    requires Chained(calls, limit)
    ensures Measurements(calls) == Shortenings(calls) + 1
    ensures Shortenings(calls) == |calls| / 2
  {
    CountsByParity(calls, |calls|);
    assert calls[..|calls|] == calls;
  }

  lemma {:induction false} CountsByParity(calls: seq<Call>, n: nat)
    requires n <= |calls|
    requires forall i :: 0 <= i < |calls| ==> (calls[i].Measured? <==> i % 2 == 0)
    ensures Shortenings(calls[..n]) == n / 2
    ensures Measurements(calls[..n]) == (n + 1) / 2
  {
    if n > 0 {
      assert calls[..n][..n - 1] == calls[..n - 1];
      CountsByParity(calls, n - 1);
    }
  }

  /** With a positive limit, every shortening in a chain asks for a strict reduction:
      its ratio lies strictly between 0 and 1, and its target word count lies between
      0 and the current word count (strictly below it when the text has words). */
  lemma {:induction false} ChainedRatiosInUnitInterval(calls: seq<Call>, limit: int, i: nat)
    requires Chained(calls, limit) && limit > 0
    requires 0 <= i < |calls| && calls[i].Shortened?
    ensures 0.0 < calls[i].ratio < 1.0
    ensures 0 <= calls[i].targetWords <= WordCount(calls[i].source)
    ensures WordCount(calls[i].source) > 0 ==> calls[i].targetWords < WordCount(calls[i].source)
  {
    assert ShorteningStep(calls, limit, i);
    var d := calls[i - 1].duration;
    RatioBelowOne(limit as real, d);
  }

  lemma RatioBelowOne(m: real, d: real)
    requires 0.0 < m < d
    ensures 0.0 < m / d < 1.0
  {
    var q := m / d;
    assert q * d == m;
    if q <= 0.0 || q >= 1.0 {
      assert false;
    }
  }

  /** Extending a chain by one shortening step and the measurement after it. */
  lemma ChainExtend(calls: seq<Call>, limit: int, s: Call, m: Call)
    requires Chained(calls, limit)
    requires ShorteningStep(calls + [s, m], limit, |calls|)
    ensures Chained(calls + [s, m], limit)
  {
    var ext := calls + [s, m];
    ParityExtend(calls, s, m);
    forall i | 0 < i < |ext| - 1 && i % 2 == 1
      ensures ShorteningStep(ext, limit, i)
    {
      if i < |calls| {
        StepExtend(calls, limit, s, m, i);
      }
    }
  }

  /** One more shortening step adds one shortening. */
  lemma ShorteningsOfStep(calls: seq<Call>, s: Call, m: Call)
    requires s.Shortened? && m.Measured?
    ensures Shortenings(calls + [s, m]) == Shortenings(calls) + 1
  {
    assert (calls + [s, m])[..|calls| + 1] == calls + [s];
    assert (calls + [s])[..|calls|] == calls;
  }

  /** Measurements stay at the even positions after a step. */
  lemma ParityExtend(calls: seq<Call>, s: Call, m: Call)
    requires |calls| % 2 == 1
    requires forall i :: 0 <= i < |calls| ==> (calls[i].Measured? <==> i % 2 == 0)
    requires s.Shortened? && m.Measured?
    ensures forall i :: 0 <= i < |calls + [s, m]| ==> ((calls + [s, m])[i].Measured? <==> i % 2 == 0)
  {
  }

  /** A step of a chain is still a step after the chain grows. */
  lemma StepExtend(calls: seq<Call>, limit: int, s: Call, m: Call, i: nat)
    requires 0 < i < |calls| - 1 && ShorteningStep(calls, limit, i)
    ensures ShorteningStep(calls + [s, m], limit, i)
  {
  }

  /** Extending the answered calls by the next shortening and measurement. */
  lemma AnsweredExtend(calls: seq<Call>, b: Backends, s: Call, m: Call)
    requires AnsweredBy(calls, b) && |calls| % 2 == 1
    requires s.Shortened? && s.output == Shorten(b, |calls| / 2, s.source, s.ratio)
    requires m.Measured? && m.duration == MeasureDuration(b, |calls| / 2 + 1, m.text)
    ensures AnsweredBy(calls + [s, m], b)
  {
  }

  // ---------------------------------------------------------------------------
  // Properties of the controller.

  /** The calls of the corrected handler form an answered chain with at most two
      shortenings. */
  lemma IntendedCalls(b: Backends, limit: int, text: string)
    ensures var r := ValidateIntended(b, limit, text);
      && |r.calls| > 0
      && r.calls[0] == Measured(text, MeasureDuration(b, 0, text))
      && Chained(r.calls, limit)
      && AnsweredBy(r.calls, b)
      && Shortenings(r.calls) <= 2
  {
    var calls := ValidateIntended(b, limit, text).calls;
    var d0 := MeasureDuration(b, 0, text);
    var first := [Measured(text, d0)];
    assert Shortenings(first) == 0 by {
      assert first[..0] == [];
    }
    if d0 > limit as real && d0 != 0.0 {
      var s1 := ShortenCall(b, 0, text, limit as real / d0);
      var d1 := MeasureDuration(b, 1, s1.output);
      var m1 := Measured(s1.output, d1);
      var once := first + [s1, m1];
      ChainExtend(first, limit, s1, m1);
      AnsweredExtend(first, b, s1, m1);
      ShorteningsOfStep(first, s1, m1);
      if d1 > limit as real && d1 != 0.0 {
        var s2 := ShortenCall(b, 1, s1.output, limit as real / d1);
        var d2 := MeasureDuration(b, 2, s2.output);
        var m2 := Measured(s2.output, d2);
        ChainExtend(once, limit, s2, m2);
        AnsweredExtend(once, b, s2, m2);
        ShorteningsOfStep(once, s2, m2);
        assert calls == once + [s2, m2];
      } else {
        assert calls == once;
      }
    } else {
      assert calls == first;
    }
  }

  /** A response of the corrected handler reports the last measurement, of exactly the
      returned text, and the configured limit. */
  lemma IntendedResponse(b: Backends, limit: int, text: string)
    ensures var r := ValidateIntended(b, limit, text);
      r.outcome.Responded? ==>
        var res := r.outcome.result;
        && |r.calls| > 0
        && res.maxAllowed == limit
        && r.calls[|r.calls| - 1] ==
             Measured(res.text, if res.Modified? then res.newDuration else res.duration)
  {
  }

  /** Every request measures its input text first, then alternates shortenings and
      measurements as a chain, each call answered by the service with its call number;
      it shortens at most twice; when it responds, the reported duration is the last
      measurement, taken of exactly the returned text, and `max_allowed_duration` is
      the configured limit. */
  lemma ValidateTrace(b: Backends, limit: int, text: string)
    ensures var r := Validate(b, limit, text);
      && |r.calls| > 0
      && r.calls[0] == Measured(text, MeasureDuration(b, 0, text))
      && Chained(r.calls, limit)
      && AnsweredBy(r.calls, b)
      && Shortenings(r.calls) <= 2
      && (r.outcome.Responded? ==>
            var res := r.outcome.result;
            var last := r.calls[|r.calls| - 1];
            && res.maxAllowed == limit
            && last == Measured(res.text,
                                if res.Modified? then res.newDuration else res.duration))
  {
    var d0 := MeasureDuration(b, 0, text);
    if !(d0 > limit as real && d0 != 0.0 && limit as real / d0 == 0.0) {
      IntendedCalls(b, limit, text);
      IntendedResponse(b, limit, text);
    }
  }

  /** Within the limit, for the corrected handler and every limit: the text comes back
      unchanged with `modified` false and its one measurement as `duration`, and nothing
      is shortened; and conversely, an unmodified response means the first measurement
      was within the limit. */
  lemma IntendedWithinLimit(b: Backends, limit: int, text: string)
    ensures var d0 := MeasureDuration(b, 0, text);
      var r := ValidateIntended(b, limit, text);
      && (d0 <= limit as real <==> r.outcome == Responded(Unmodified(text, d0, limit)))
      && (d0 <= limit as real ==> r.calls == [Measured(text, d0)] && Shortenings(r.calls) == 0)
  {
    assert [Measured(text, MeasureDuration(b, 0, text))][..0] == [];
  }

  /** Over the limit, for the corrected handler and every limit: when the request
      responds, the response is `modified` true (even when the limit is never met),
      reports the first measurement as `original_duration`, and follows one or two
      shortenings; the second one happens exactly when the measurement after the first
      is still over the limit. */
  lemma IntendedOverLimit(b: Backends, limit: int, text: string)
    requires MeasureDuration(b, 0, text) > limit as real
    ensures var r := ValidateIntended(b, limit, text);
      r.outcome.Responded? ==>
        && r.outcome.result.IsModified()
        && r.outcome.result.originalDuration == MeasureDuration(b, 0, text)
        && 1 <= Shortenings(r.calls) <= 2
        && |r.calls| >= 3
        && (Shortenings(r.calls) == 2 <==> r.calls[2].duration > limit as real)
  {
    var r := ValidateIntended(b, limit, text);
    IntendedCalls(b, limit, text);
    if r.outcome.Responded? {
      ChainedCounts(r.calls, limit);
      assert r.calls[2].Measured?;
    }
  }

  /** `IntendedWithinLimit` for the handler as written. */
  lemma ValidateWithinLimit(b: Backends, limit: int, text: string)
    ensures var d0 := MeasureDuration(b, 0, text);
      var r := Validate(b, limit, text);
      && (d0 <= limit as real <==> r.outcome == Responded(Unmodified(text, d0, limit)))
      && (d0 <= limit as real ==> r.calls == [Measured(text, d0)] && Shortenings(r.calls) == 0)
  {
    IntendedWithinLimit(b, limit, text);
  }

  /** `IntendedOverLimit` for the handler as written. */
  lemma ValidateOverLimit(b: Backends, limit: int, text: string)
    requires MeasureDuration(b, 0, text) > limit as real
    ensures var r := Validate(b, limit, text);
      r.outcome.Responded? ==>
        && r.outcome.result.IsModified()
        && r.outcome.result.originalDuration == MeasureDuration(b, 0, text)
        && 1 <= Shortenings(r.calls) <= 2
        && |r.calls| >= 3
        && (Shortenings(r.calls) == 2 <==> r.calls[2].duration > limit as real)
  {
    if limit != 0 {
      ValidateIsIntendedUnlessZeroLimit(b, limit, text);
      IntendedOverLimit(b, limit, text);
    }
  }

  /** With a positive limit the request always responds, and every shortening it makes
      uses a ratio strictly between 0 and 1 with a target word count no larger than the
      current one. */
  lemma ValidateLimitPositive(b: Backends, limit: int, text: string)
    requires limit > 0
    ensures var r := Validate(b, limit, text);
      && r.outcome.Responded?
      && forall i :: 0 <= i < |r.calls| && r.calls[i].Shortened? ==>
           && 0.0 < r.calls[i].ratio < 1.0
           && 0 <= r.calls[i].targetWords <= WordCount(r.calls[i].source)
  {
    var r := Validate(b, limit, text);
    ValidateTrace(b, limit, text);
    forall i | 0 <= i < |r.calls| && r.calls[i].Shortened?
      ensures 0.0 < r.calls[i].ratio < 1.0
      ensures 0 <= r.calls[i].targetWords <= WordCount(r.calls[i].source)
    {
      ChainedRatiosInUnitInterval(r.calls, limit, i);
    }
  }

  /** A summarizer that never succeeds cannot make the controller loop: with a measure
      that answers the same text the same way, an over-limit text is shortened exactly
      twice and comes back unchanged, with `modified` true. */
  lemma FailingSummarizerStopsAfterTwo(b: Backends, limit: int, text: string)
    requires limit > 0
    requires forall n, t, w :: b.chat(n, t, w).None?
    requires b.speech(1, text) == b.speech(0, text) && b.speech(2, text) == b.speech(0, text)
    requires MeasureDuration(b, 0, text) > limit as real
    ensures var d0 := MeasureDuration(b, 0, text);
      var r := Validate(b, limit, text);
      && r.outcome == Responded(Modified(text, d0, d0, limit))
      && Shortenings(r.calls) == 2
  {
    var r := Validate(b, limit, text);
    ValidateTrace(b, limit, text);
    ChainedCounts(r.calls, limit);
  }

  /** A request with a limit of 10 s and a 30-word text measured at 12.0 s: one
      shortening with ratio 10/12 asks for 25 words, the reply measures 9.5 s, and the
      response is `modified` true with both durations. */
  lemma WorkedExample(b: Backends, text: string, reply: string)
    requires WordCount(text) == 30
    requires b.speech(0, text) == Some(12.0)
    requires b.chat(0, text, 25) == Some(reply)
    requires b.speech(1, reply) == Some(9.5)
    ensures Validate(b, 10, text) ==
      Run(Responded(Modified(reply, 12.0, 9.5, 10)),
          [Measured(text, 12.0), Shortened(text, 10.0 / 12.0, 25, reply), Measured(reply, 9.5)])
  {
    assert ScaledWords(30, 10.0 / 12.0) == 25.0;
    assert TargetWords(text, 10.0 / 12.0) == 25;
  }

  // ---------------------------------------------------------------------------
  // The division by zero in the log message.

  /** As written, a limit of 0 makes every request whose text measures above 0 fail:
      the first ratio is 0 and the log message divides by it. */
  lemma ZeroLimitRaises(b: Backends, text: string)
    requires MeasureDuration(b, 0, text) > 0.0
    ensures Validate(b, 0, text).outcome == Raised(ZeroRatioReciprocal)
  {
  }

  /** Without the division in the log message, a non-negative limit never raises:
      the `> limit` guards keep both divisors non-zero. */
  lemma IntendedNeverRaises(b: Backends, limit: int, text: string)
    requires limit >= 0
    ensures ValidateIntended(b, limit, text).outcome.Responded?
  {
  }

  /** A negative limit lets a zero measurement (an empty text whose synthesis fails,
      say) pass the `> limit` guard, and the first ratio then divides by zero. */
  lemma NegativeLimitZeroDurationRaises(b: Backends, limit: int, text: string)
    requires limit < 0
    requires MeasureDuration(b, 0, text) == 0.0
    ensures Validate(b, limit, text) == Run(Raised(FirstRatioByZero), [Measured(text, 0.0)])
  {
  }

  /** With a negative limit, a re-measurement of 0 after the first shortening passes the
      `> limit` guard, and the second ratio divides by zero. */
  lemma NegativeLimitZeroRemeasurementRaises(b: Backends, limit: int, text: string)
    requires limit < 0
    requires MeasureDuration(b, 0, text) > limit as real && MeasureDuration(b, 0, text) != 0.0
    requires var d0 := MeasureDuration(b, 0, text);
      MeasureDuration(b, 1, Shorten(b, 0, text, limit as real / d0)) == 0.0
    ensures var r := Validate(b, limit, text);
      && r.outcome == Raised(SecondRatioByZero)
      && |r.calls| == 3 && r.calls[2].duration == 0.0
  {
    ValidateIsIntendedUnlessZeroLimit(b, limit, text);
  }

  /** With a limit of 0, the corrected handler shortens every text measured above 0
      and responds `modified` true, reporting that measurement as `original_duration`. */
  lemma ZeroLimitIntendedShortens(b: Backends, text: string)
    requires MeasureDuration(b, 0, text) > 0.0
    ensures var r := ValidateIntended(b, 0, text);
      && r.outcome.Responded?
      && r.outcome.result.IsModified()
      && r.outcome.result.originalDuration == MeasureDuration(b, 0, text)
      && 1 <= Shortenings(r.calls) <= 2
  {
    IntendedNeverRaises(b, 0, text);
    IntendedOverLimit(b, 0, text);
  }

  /** The handler as written differs from the intended one only when the limit is 0. */
  lemma ValidateIsIntendedUnlessZeroLimit(b: Backends, limit: int, text: string)
    requires limit != 0
    ensures Validate(b, limit, text) == ValidateIntended(b, limit, text)
  {
  }
}
