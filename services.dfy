/** The two services the controller calls, with the network, the TTS model, the
    temporary audio file and ffprobe replaced by oracles: measuring a text's spoken
    duration (`get_audio_duration_with_tts`) and asking a chat model to shorten it
    (`shorten_text_with_gpt`). Both recover from every failure locally. */
module Services {
  import opened Words
  import opened Estimate

  datatype Option<T> = None | Some(value: T)

  /** What the external services answer during one request. Calls are numbered from 0
      in the order the request makes them, so a service may answer the same text
      differently on different calls.
      - `speech(n, text)`: the duration ffprobe reports for the audio synthesised from
        `text` at the n-th measurement; `None` when synthesis, writing the audio, running
        ffprobe, reading its JSON output or deleting the audio file fails.
      - `chat(n, text, targetWords)`: the content of the n-th chat completion, asked to
        shorten `text` to about `targetWords` words; `None` when the call fails. */
  datatype Backends = Backends(
    speech: (nat, string) -> Option<real>,
    chat: (nat, string, int) -> Option<string>)

  /** `get_audio_duration_with_tts`: the measured duration, or the word-count estimate
      of the same text when measuring fails. */
  function MeasureDuration(b: Backends, n: nat, text: string): (seconds: real)
    ensures b.speech(n, text).Some? ==> seconds == b.speech(n, text).value
    ensures b.speech(n, text).None? ==> seconds == EstimateDuration(text) && seconds >= 0.0
  {
    match b.speech(n, text)
    case Some(measured) => measured
    case None => EstimateDuration(text)
  }

  /** When measuring always fails, the controller sees exactly the heuristic estimate. */
  lemma MeasureFallsBackToEstimate(b: Backends, n: nat)
    requires forall text :: b.speech(n, text).None?
    ensures forall text :: MeasureDuration(b, n, text) == EstimateDuration(text)
  {
  }

  /** Python's `int(x)` on a float: truncation toward zero. */
  function TruncateToInt(x: real): (n: int)
    ensures 0.0 <= x ==> n as real <= x < n as real + 1.0
    ensures x < 0.0 ==> n as real - 1.0 < x <= n as real
  {
    if x >= 0.0 then x.Floor else -((-x).Floor)
  }

  /** `current_words * target_length_ratio`: a ratio in [0,1] keeps the product within
      [0, count], and a ratio below 1 shrinks a positive count. */
  function ScaledWords(n: nat, ratio: real): (x: real)
    ensures 0.0 <= ratio ==> 0.0 <= x
    ensures 0.0 <= ratio <= 1.0 ==> x <= n as real
    ensures 0.0 <= ratio < 1.0 && n > 0 ==> x < n as real
  {
    var count := n as real;
    assert count * ratio == count - count * (1.0 - ratio);
    count * ratio
  }

  /** `target_words = int(current_words * target_length_ratio)`. */
  function TargetWords(text: string, ratio: real): (target: int)
    // for a non-negative ratio the target is the floor of words * ratio
    ensures 0.0 <= ratio ==>
              target as real <= ScaledWords(WordCount(text), ratio) < target as real + 1.0
    ensures 0.0 <= ratio <= 1.0 ==> 0 <= target <= WordCount(text)
    ensures 0.0 <= ratio < 1.0 && WordCount(text) > 0 ==> target < WordCount(text)
  {
    var x := ScaledWords(WordCount(text), ratio);
    var target := TruncateToInt(x);
    TruncatedBounds(WordCount(text), x, target);
    target
  }

  lemma TruncatedBounds(n: nat, x: real, t: int)
    requires 0.0 <= x ==> t as real <= x < t as real + 1.0
    ensures 0.0 <= x <= n as real ==> 0 <= t <= n
    ensures 0.0 <= x < n as real ==> t < n
  {
  }

  /** `shorten_text_with_gpt`: the chat model's reply, or the text unchanged when the
      chat call fails. */
  function Shorten(b: Backends, n: nat, text: string, ratio: real): (shorter: string)
    ensures b.chat(n, text, TargetWords(text, ratio)).Some? ==>
              shorter == b.chat(n, text, TargetWords(text, ratio)).value
    ensures b.chat(n, text, TargetWords(text, ratio)).None? ==> shorter == text
  {
    match b.chat(n, text, TargetWords(text, ratio))
    case Some(reply) => reply
    case None => text
  }

  /** When the chat backend always fails, shortening is the identity for every ratio. */
  lemma ShortenFailurePassthrough(b: Backends, n: nat, text: string)
    requires forall t, w :: b.chat(n, t, w).None?
    ensures forall ratio :: Shorten(b, n, text, ratio) == text
  {
  }
}
