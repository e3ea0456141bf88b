/** The heuristic duration estimate used when no audio can be measured: the word
    count read at a fixed speaking rate. */
module Estimate {
  import opened Words

  /** Assumed speaking rate, in words per minute. */
  const WordsPerMinute: nat := 150

  /** `estimate_audio_duration`: `(word_count / WORDS_PER_MINUTE) * 60` seconds, with
      Python's true division. */
  function EstimateDuration(text: string): (seconds: real)
    ensures seconds >= 0.0
    ensures seconds == 0.0 <==> AllSpace(text)
    // at WordsPerMinute words per minute, `seconds` seconds hold exactly WordCount(text) words
    ensures seconds * WordsPerMinute as real == WordCount(text) as real * 60.0
  {
    (WordCount(text) as real / WordsPerMinute as real) * 60.0
  }

  /** More words never give a shorter estimate. */
  lemma EstimateMonotone(a: string, b: string)
    requires WordCount(a) <= WordCount(b)
    ensures EstimateDuration(a) <= EstimateDuration(b)
  {
  }

  /** Appending text never shortens the estimate. */
  lemma EstimateOfAppend(a: string, b: string)
    ensures EstimateDuration(a) <= EstimateDuration(a + b)
  {
    WordCountOfAppend(a, b);
  }

  /** Texts joined by whitespace take as long as the two texts one after the other. */
  lemma EstimateOfJoin(a: string, c: char, b: string)
    requires IsSpace(c)
    ensures EstimateDuration(a + [c] + b) == EstimateDuration(a) + EstimateDuration(b)
  {
    WordCountOfJoin(a, c, b);
  }
}
