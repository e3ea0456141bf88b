# Audio-length validation: a Dafny model

This project models the decision logic of a small service that keeps the spoken
version of a text within a maximum duration (`api/app.py`). The service measures how
long the text takes to speak. It synthesises speech and probes the audio file, and if
either fails it estimates the duration from the word count at 150 words per minute.
When the duration is over `MAX_AUDIO_LENGTH`, it asks a chat model to shorten the text
with the ratio `MAX_AUDIO_LENGTH / duration` and measures again. It shortens a second
time at most. It then answers with one of two result shapes: modified or not modified.

The speech, probe and chat services are oracles. A `Backends` value holds two
functions: one gives a measurement or a failure, the other a chat reply or a failure.
Each takes the number of the call within the request, so the model also covers
services that answer the same text differently on different calls.

Modules, one file each:

- `Words` (`words.dfy`): `str.split()` with no separator. The words are the maximal
  runs of non-whitespace characters. It includes a reference count of those runs.
- `Estimate` (`estimate.dfy`): `estimate_audio_duration`.
- `Services` (`services.dfy`): `get_audio_duration_with_tts` (measure or fall back) and
  `shorten_text_with_gpt` (target word count and failure passthrough).
- `Controller` (`controller.dfy`): `validate_audio_length`. It returns a `Run`: the
  outcome (a `ValidationResult` or a raised division by zero) and the list of
  service calls made, in order. `Chained` and `AnsweredBy` specify what that call list
  must look like. The lemmas prove that every request's calls have that shape.

Durations and ratios are `real`, and `MAX_AUDIO_LENGTH` is an `int` parameter
(`limit`). Python's `int()` on a float truncates toward zero, and `TruncateToInt`
writes that out.

A division by zero in the handler is not caught, so Flask turns it into an error
response. The model represents this as `Raised(fault)`.

## Model

| member | source | states |
|---|---|---|
| `Words.Split` | api/app.py:27 | every word is non-empty and holds no whitespace; there are no words exactly when the text is empty or all whitespace |
| `Words.WordCount` | api/app.py:27 | `len(text.split())` is 0 exactly when the text is empty or all whitespace, and never exceeds the text's length |
| `Words.WordCountIsRunCount` | api/app.py:27 | the number of words equals the number of maximal runs of non-whitespace characters (positions holding a non-whitespace character that is first or follows whitespace) |
| `Words.SplitIsRuns` | api/app.py:27 | the words are exactly the maximal runs of non-whitespace characters, in order: one per run beginning, reaching to the next whitespace or the end |
| `Words.SplitKeepsText` | api/app.py:27 | concatenating the words gives the text with all whitespace removed, in order |
| `Words.WordCountOfAppend` | api/app.py:27 | appending text never lowers the word count |
| `Words.WordCountOfJoin` | api/app.py:27 | two texts joined by one whitespace character have the sum of their word counts |
| `Estimate.EstimateDuration` | api/app.py:24-30 | the estimate is non-negative, is 0 exactly for empty or all-whitespace text, and at 150 words per minute holds exactly the word count |
| `Estimate.EstimateMonotone` | api/app.py:29 | more words never give a shorter estimate |
| `Estimate.EstimateOfAppend` | api/app.py:24-30 | appending text never shortens the estimate |
| `Estimate.EstimateOfJoin` | api/app.py:24-30 | texts joined by whitespace are estimated at the sum of their estimates |
| `Services.MeasureDuration` | api/app.py:72-105 | the result is the probed duration when synthesis and probing succeed, otherwise the heuristic estimate of the same text (then non-negative) |
| `Services.MeasureFallsBackToEstimate` | api/app.py:102-105 | when measuring always fails, every measurement equals the heuristic estimate |
| `Services.ScaledWords` | api/app.py:37 | `current_words * target_length_ratio` is non-negative for a non-negative ratio, at most the word count for a ratio in [0,1], and below it for a ratio below 1 and a non-empty text |
| `Services.TruncateToInt` | api/app.py:37 | `int()` truncates toward zero: floor for non-negative values, ceiling for negative ones |
| `Services.TargetWords` | api/app.py:36-37 | for a non-negative ratio the target is `floor(words * ratio)`; for a ratio in [0,1] it lies in [0, words]; for a ratio below 1 it is below the word count of a non-empty text |
| `Services.Shorten` | api/app.py:32-70 | the result is the chat reply to the text and its target word count, or the text unchanged when the chat call fails |
| `Services.ShortenFailurePassthrough` | api/app.py:67-70 | when the chat backend always fails, shortening returns the text unchanged for every ratio |
| `Controller.ValidateIntended` | api/app.py:107-155 | the handler without the division in the log message at line 124: an odd number of calls, at most five, the first measuring the input text; a response reports the limit; it never raises at the log message, and it raises at the first ratio only for a negative limit after a zero measurement, and at the second ratio only for a negative limit after a zero re-measurement, with three calls made |
| `Controller.Validate` | api/app.py:107-155 | the handler as written: the same call shape; it raises at the `1/target_ratio` of the log message exactly when the limit is 0 and the first measurement is above 0, after that one measurement; it raises at the second ratio only for a negative limit after a zero re-measurement, with three calls made |
| `Controller.ChainedCounts` | api/app.py:115-137 | in a measure/shorten chain, measurements outnumber shortenings by one and shortenings are half the calls |
| `Controller.ChainedRatiosInUnitInterval` | api/app.py:123-136 | with a positive limit, every shortening in a chain has a ratio strictly between 0 and 1 and a target word count between 0 and the current word count, strictly below it for a non-empty text |
| `Controller.ValidateTrace` | api/app.py:107-155 | the input is measured first; calls alternate measure/shorten as a chain, each shortening caused by an over-limit measurement with ratio limit/measurement; each call is the service's answer for its call number; at most two shortenings; a response reports the last measurement, taken of exactly the returned text, and `max_allowed_duration` = limit |
| `Controller.IntendedWithinLimit` | api/app.py:115-155 | for the corrected handler and every limit: first measurement within the limit if and only if the response is `modified=false` with the input text unchanged and that measurement as `duration`; then one call and no shortening |
| `Controller.IntendedOverLimit` | api/app.py:119-146 | for the corrected handler and every limit: a response after an over-limit first measurement is `modified=true` with that measurement as `original_duration`, after one or two shortenings, two exactly when the re-measurement is still over the limit |
| `Controller.ValidateWithinLimit` | api/app.py:115-155 | first measurement within the limit if and only if the response is `modified=false` with the input text unchanged and that measurement as `duration`; then there is one call in total and no shortening |
| `Controller.ValidateOverLimit` | api/app.py:119-146 | first measurement over the limit: a response is `modified=true` even when the limit is never met, with the first measurement as `original_duration`, after one or two shortenings, two exactly when the re-measurement is still over the limit |
| `Controller.ValidateLimitPositive` | api/app.py:119-137 | with a positive limit the request always responds, and every shortening ratio lies strictly in (0,1) with a target word count no larger than the current one |
| `Controller.FailingSummarizerStopsAfterTwo` | api/app.py:119-146 | with a positive limit, a chat backend that always fails and a stable measurement, an over-limit text is shortened exactly twice and returned unchanged with `modified=true` and equal original and new durations |
| `Controller.WorkedExample` | api/app.py:115-146 | limit 10, a 30-word text measured at 12.0 s, a reply measured at 9.5 s: one shortening with ratio 10/12 and target 25 words, response `modified=true`, original 12.0, new 9.5 |
| `Controller.ZeroLimitRaises` | api/app.py:123-124 | with a limit of 0, every text measured above 0 makes the handler raise at the `1/target_ratio` in the log message |
| `Controller.IntendedNeverRaises` | api/app.py:119-137 | without that log division, a non-negative limit never raises: the `> limit` guards keep both divisors non-zero |
| `Controller.NegativeLimitZeroDurationRaises` | api/app.py:119-123 | with a negative limit, a zero first measurement passes the guard and the first ratio divides by zero |
| `Controller.NegativeLimitZeroRemeasurementRaises` | api/app.py:127-136 | with a negative limit, a re-measurement of 0 after the first shortening passes the guard and the second ratio divides by zero |
| `Controller.ZeroLimitIntendedShortens` | api/app.py:119-146 | with a limit of 0, the corrected handler shortens every text measured above 0 and responds `modified=true` with that measurement as `original_duration` |
| `Controller.ValidateIsIntendedUnlessZeroLimit` | api/app.py:123-124 | the handler as written and the corrected one agree for every limit other than 0 |

## Left out

- The Flask app, the route, reading `request.json` and `jsonify`: HTTP plumbing. The
  two response shapes are the `ValidationResult` datatype. A body without `text`
  would give the empty string and is just another input text. A missing or non-JSON
  body, or a `text` that is not a string, is not modelled.
- The OpenAI chat and speech calls, the temporary audio file, the `ffprobe`
  subprocess and the parsing of its JSON output are network, file and process I/O.
  They are the `Backends` oracles, where a failure at any step is `None`.
- Deleting the temporary file: the source skips `os.unlink` when probing or parsing
  raises, so the model claims nothing about cleanup.
- Loading the environment, the API key and the port: configuration. The limit is the
  `limit` parameter, and the speaking rate is the constant 150.
- The prompt text and its `:.1f` formatting, sampling temperature, token cap and all
  logging, except that the log message on line 124 evaluates `1/target_ratio`. That
  division can raise, so it is modelled (see Findings).
- Floating-point rounding of durations and ratios: the model uses exact reals.
- A chat reply whose content is `None`: the oracle always answers with a string.
- `Words.IsSpace` is the whitespace set of `str.isspace()` written out as code points.
  Python takes it from the Unicode database. The model uses a fixed list.

## Findings

| source | as written | input that shows it | evidently intended | confidence | as-written member | corrected member |
|---|---|---|---|---|---|---|
| api/app.py:123-124 | after `target_ratio = MAX_AUDIO_LENGTH / actual_duration`, the log message formats `1/target_ratio`, which raises `ZeroDivisionError` when the ratio is 0 | `MAX_AUDIO_LENGTH=0` and any text whose measured duration is above 0 | a log message never makes the request fail: the handler shortens and answers `modified=true` | medium; not executed | `Controller.ZeroLimitRaises` (about `Controller.Validate`) | `Controller.ZeroLimitIntendedShortens` and `Controller.IntendedNeverRaises` (about `Controller.ValidateIntended`) |

`Controller.Validate` models the handler as written. `Controller.ValidateIntended` is
the corrected handler, and `Validate` is defined through it.
`ValidateIsIntendedUnlessZeroLimit` proves the two agree for every limit other than 0.
The within-limit and over-limit lemmas are stated about `ValidateIntended` for every
limit (`IntendedWithinLimit`, `IntendedOverLimit`) and carried to `Validate` from them;
at limit 0 the handler as written raises instead of responding.
