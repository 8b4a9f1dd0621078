# Run scoring and metrics (maycamp_arena)

A Dafny model of the `Run` record of the maycamp_arena judge
(`app/models/run.rb`). A run is one submission. The judge writes its
per-test results into a whitespace-separated status string (`"ok"` for a
passed test, any other word for a failed one) and its execution output into
a log. The record:

- scores the status: each `"ok"` is worth `100 / n` points for `n` tests, and
  the total is rounded half up and stored in `total_points`;
- extracts the largest `Used time: ` and `Used mem: ` figures from the log
  into `max_time` and `max_memory`;
- stores the source code and the log as binary blobs, sanitised by dropping
  every byte that has no UTF-8 meaning when read as binary;
- finds the Java class name in the source code.

Modules, one per concern:

- `Sanitizer` (`sanitizer.dfy`): the binary-to-UTF-8 conversion with empty
  replacement. It is a filter that keeps the ASCII bytes.
- `Tokens` (`tokens.dfy`): Ruby's `String#split(/\s+/)`.
- `Scoring` (`scoring.dfy`): `points_float`, `points`, `total_points_float`
  and the rounded total. BigDecimal arithmetic is exact `real` arithmetic.
- `Metrics` (`metrics.dfy`): `String#scan` with the two log patterns,
  decimal and integer parsing of the captures, and `Array#max`.
- `ClassName` (`class_name.dfy`): `source_code[/public class (\w+)/i, 1]`.
- `Runs` (`run.dfy`): the `Run` class. Its fields are the status, the blob
  collection and the three derived attributes. Its methods are the setters,
  the two update callbacks and the `before_save` chain.
- `Wrappers` (`wrappers.dfy`): `Option`, standing for Ruby's `nil`.

Notes on how the model reads the code:

- `split(/\s+/)` keeps a leading empty field when the status starts with
  whitespace, and drops trailing empty fields. So `" ok"` is two tests, an
  empty label and a pass, worth 50 points in total. The model follows the
  code here. A reading in which leading whitespace is simply ignored would
  give 100.
- `\s` is the whitespace class of Ruby 2.2 and later: space, tab, line
  feed, vertical tab, form feed and carriage return. Before Ruby 2.2 it
  did not include the vertical tab.
- The log patterns need exactly one space after the colon (`Used time: `,
  `Used mem: `). A line such as `Used time:  1.5`, with two spaces, does not
  match.
- `[0-9\.]+` can capture a figure with several dots. The model reads the
  longest `digits[.digits]` prefix of the capture.
- `public class (\w+)` needs at least one word character right after the
  tag. The first occurrence of the tag that has one is the match.
- The `nil` cases of the Ruby code are written out:
  - `source_code=(nil)` stores `""`;
  - `log=(nil)` builds the collection and then raises;
  - `update_time_and_mem` raises without a collection, keeps everything for
    a `nil` log, and clears both metrics for an empty log;
  - `total_points` reads `nil` as 0.

  The outcome `NoMethodError` stands for the raise.

## Model

| member | source | states |
|---|---|---|
| Sanitizer.Sanitize | app/models/run.rb:100-102 | The result is pure ASCII. It is shorter than the input by exactly the number of non-ASCII bytes. |
| Sanitizer.SanitizeAppend | app/models/run.rb:100-102 | The conversion works byte by byte: sanitising a concatenation concatenates the sanitised parts. |
| Sanitizer.SanitizeCounts | app/models/run.rb:100-102 | Every ASCII byte is kept as many times as it occurs. No other byte is kept. |
| Sanitizer.SanitizeFixpoint | app/models/run.rb:54 | Content comes back unchanged exactly when it is all ASCII. |
| Sanitizer.SanitizeIdempotent | app/models/run.rb:59 | Re-encoding stored content that was already sanitised changes nothing. |
| Sanitizer.SanitizeLengthPreserved | app/models/run.rb:100-102 | The length is preserved exactly when nothing is dropped. |
| Tokens.Fields | app/models/run.rb:80 | Splitting at maximal whitespace runs always yields at least one field. |
| Tokens.DropTrailingEmpty | app/models/run.rb:80 | Only trailing empty fields are removed. The result is a prefix, and its last field is non-empty. |
| Tokens.FieldsAllEmpty | app/models/run.rb:80 | Every raw field is empty exactly when the string is all whitespace. |
| Tokens.SplitWsEmpty | app/models/run.rb:80 | `split` yields no token exactly when the status is empty or all whitespace. |
| Tokens.SplitWsShape | app/models/run.rb:80-81 | No token contains whitespace. Only the first token can be empty, and it is empty exactly when the status starts with whitespace. |
| Tokens.FieldsInterleave | app/models/run.rb:80 | Splitting well-separated words joined by whitespace gaps gives back the words. |
| Tokens.SplitWsRoundTrip | app/models/run.rb:80-81 | For non-empty words joined by whitespace, with optional leading and trailing whitespace, `split` returns the words. It adds one leading empty field when there is leading whitespace. |
| Scoring.ScoresOf | app/models/run.rb:81 | One entry per token, in order: the per-test worth for `"ok"`, the token itself otherwise. |
| Scoring.PointsFloatShape | app/models/run.rb:79-82 | `points_float` has one entry per token. Each `"ok"` is exactly `100 / n`, where `n` is the number of tokens. Every other token is kept as a label. |
| Scoring.SumScoresOf | app/models/run.rb:76 | Summing the numeric entries gives the number of `"ok"` tokens times the per-test worth. |
| Scoring.AllOkCount | app/models/run.rb:81 | The count of `"ok"` tokens equals the token count exactly when every token is `"ok"`. |
| Scoring.TotalPointsFloatValue | app/models/run.rb:75-77 | `total_points_float` is the worth `100 / n` added up once per passed test. |
| Scoring.RepeatedMul | app/models/run.rb:76 | Adding the same worth `c` times gives `c` times the worth. |
| Scoring.TotalPointsFloatProduct | app/models/run.rb:75-77 | `total_points_float` is the number of passed tests times `100 / n`, for `n` tokens. |
| Scoring.TotalPointsFloatRange | app/models/run.rb:75-77 | `total_points_float` lies in [0, 100]. It is exactly 100 when every token is `"ok"`. |
| Scoring.RoundHalfUp | app/models/run.rb:85 | The result is an integer within 1/2 of the value. Ties go away from zero. |
| Scoring.RoundHalfUpTie | app/models/run.rb:85 | A non-negative sum ending in exactly .5 rounds up. |
| Scoring.TotalPointsRange | app/models/run.rb:84-86 | The stored total is in [0, 100], and 100 when all tests passed. An empty or all-whitespace status gives no entries and 0. |
| Scoring.PointsShape | app/models/run.rb:38-40 | `points` keeps the shape of `points_float`: numbers are rounded half up and labels are unchanged. Each `"ok"` gets the same whole worth, which lies in [0, 100]. |
| Scoring.ExampleOk | app/models/run.rb:79-86 | `"ok"` scores `[100]` with total 100. |
| Scoring.ExampleOkWrongOk | app/models/run.rb:79-86 | `"ok wrong ok"` scores `[100/3, "wrong", 100/3]` with total 67. |
| Scoring.ExampleLeadingSpace | app/models/run.rb:79-86 | `" ok"` scores `["", 50]` with total 50. |
| Scoring.ExampleEmpty | app/models/run.rb:79-86 | `""` scores `[]` with total 0. |
| Metrics.RunLen | app/models/run.rb:90-91 | The greedy class run: every character in it is in the class, and the next character is not. |
| Metrics.CaptureAt | app/models/run.rb:90-91 | The captured group is a non-empty run of class characters. |
| Metrics.MatchStarts | app/models/run.rb:90-91 | Every position the scan reports is a match at or after where the scan started. |
| Metrics.Scan | app/models/run.rb:90-91 | Every captured group is a non-empty run of class characters. |
| Metrics.NoMatchInside | app/models/run.rb:90-91 | With a tag whose first character occurs nowhere else in it and is outside the class, no match can begin strictly inside another match. |
| Metrics.ScanComplete | app/models/run.rb:90-91 | The non-overlapping leftmost scan misses no match of either pattern. |
| Metrics.TagsUnambiguous | app/models/run.rb:90-91 | Neither tag can begin inside a match of itself. |
| Metrics.ParseDecimal | app/models/run.rb:90 | A parsed time is never negative. |
| Metrics.DigitsBelow | app/models/run.rb:91 | A run of `k` digits denotes less than `10^k`. |
| Metrics.ParseDecimalFloor | app/models/run.rb:90 | The whole part of a parsed time is the integer spelled by its leading digits. |
| Metrics.DigitsAppend | app/models/run.rb:91 | Digits are read left to right: appending `b` to `a` multiplies the value of `a` by `10^|b|` and adds the value of `b`. |
| Metrics.ParseDecimalWhole | app/models/run.rb:90 | A capture with no dot is read as the integer its digits spell. |
| Metrics.ParseDecimalParts | app/models/run.rb:90 | `w.f`, followed by nothing or by a second dot, is read as the integer of `w` plus the digits of `f` over `10^|f|`. |
| Metrics.ParseDecimalFraction | app/models/run.rb:90 | `w.f`, followed by nothing or by a second dot, is read as the integer spelled by the digits of `w` and `f` together, divided by `10^|f|`. |
| Metrics.ExampleParseDecimal | app/models/run.rb:90 | `"1.234"` parses to 1.234. |
| Metrics.MaxBy | app/models/run.rb:90-91 | `max` under a total preorder (`<=` on times, `<=` on memory figures) is `nil` exactly for an empty list. Otherwise it is an element that every element is at most. |
| Metrics.TimeValuesComplete | app/models/run.rb:90 | Every `Used time: ` match contributes its figure. |
| Metrics.TimeValuesSound | app/models/run.rb:90 | Every figure collected comes from a `Used time: ` match. |
| Metrics.MaxTimeBound | app/models/run.rb:90 | Any match makes the stored time non-`nil` and at least that match's figure. |
| Metrics.MaxTimeAttained | app/models/run.rb:90 | A stored time is the figure of some match. |
| Metrics.MaxTimeSpec | app/models/run.rb:90 | `max_time` is `nil` exactly when no `Used time: ` line matches. Otherwise it is the figure of one match, and no match reports more. |
| Metrics.MemValuesComplete | app/models/run.rb:91 | Every `Used mem: ` match contributes its figure. |
| Metrics.MemValuesSound | app/models/run.rb:91 | Every figure collected comes from a `Used mem: ` match. |
| Metrics.MaxMemoryBound | app/models/run.rb:91 | Any match makes the stored memory non-`nil` and at least that match's figure. |
| Metrics.MaxMemoryAttained | app/models/run.rb:91 | A stored memory is the figure of some match. |
| Metrics.MaxMemorySpec | app/models/run.rb:91 | `max_memory` is `nil` exactly when no `Used mem: ` line matches. Otherwise it is the figure of one match, and no match reports more. |
| Metrics.TagStart | app/models/run.rb:90-91 | A match begins with the first character of its tag. |
| Metrics.ExampleOneTimeLine | app/models/run.rb:88-95 | `"Used time: 1.5"` gives a maximum time of 1.5 and no memory (`nil`). |
| Metrics.MixedLogMatches | app/models/run.rb:90-91 | In the example log `MixedLog` (`"Used time: 1.234\nUsed mem: 4096\nUsed time: 0.5\nUsed mem: 8192"`), the time pattern matches exactly at positions 0 and 32, and the memory pattern exactly at 17 and 47. |
| Metrics.ExampleMixedLog | app/models/run.rb:88-95 | For `"Used time: 1.234\nUsed mem: 4096\nUsed time: 0.5\nUsed mem: 8192"`, the maximum time is 1.234 and the maximum memory is 8192. Each maximum counts only its own kind of line, and the time maximum comes from the first line, not the last. |
| Metrics.ExampleNoMetrics | app/models/run.rb:88-95 | A log with neither kind of line, such as `"compilation error"`, gives `nil` for both. |
| ClassName.TagAtCaseless | app/models/run.rb:63 | The `/i` comparison of the literal: at each position of the tag the source may hold the tag character itself or, for a letter, its upper-case form, and nothing else. |
| ClassName.WordRun | app/models/run.rb:63 | `\w+` is greedy: the run is a prefix of word characters, followed by a non-word character or the end. |
| ClassName.FindFrom | app/models/run.rb:63 | Returns the leftmost match position at or after `p`, or `nil` when there is none from `p` on. |
| ClassName.NameAt | app/models/run.rb:63 | A captured name is a non-empty run of word characters. |
| ClassName.PublicClassName | app/models/run.rb:62-64 | `nil` exactly when nothing matches anywhere. Otherwise the name captured at the leftmost match. |
| ClassName.PublicClassNameSpec | app/models/run.rb:62-64 | A found name follows the leftmost match, which is the first occurrence of the tag that is followed by a word character. The name is made of word characters and stops at the first non-word character. |
| ClassName.FirstMatchUnique | app/models/run.rb:63 | The leftmost match, and so the name, is unique. |
| ClassName.ExampleWordRun | app/models/run.rb:63 | `\w+` on `"Main {"` stops at the space and captures `"Main"`. |
| ClassName.ExampleJava | app/models/run.rb:62-64 | `"public class Main {"` gives `"Main"`. |
| ClassName.ExampleUpperCase | app/models/run.rb:62-64 | `"PUBLIC CLASS X"` gives `"X"`, because the match ignores case. |
| ClassName.ExampleTwoSpaces | app/models/run.rb:62-64 | `"public class  Foo"` gives `nil`, because of the second space. |
| Runs.Run.constructor | app/models/run.rb:1 | A new run holds the given status. It has no blobs and no derived attributes. |
| Runs.Run.SourceCode | app/models/run.rb:57-60 | Returns the stored source with every non-ASCII byte dropped, so the result is always ASCII. It is `""` without a collection or without a source. Already-ASCII stored source comes back unchanged. |
| Runs.Run.SetSourceCode | app/models/run.rb:51-55 | Builds the collection when absent. Stores the sanitised content, with `nil` as `""`. Reading it back gives the sanitised content, which equals the content exactly when the content is ASCII. Nothing else changes. |
| Runs.Run.PublicClassName | app/models/run.rb:62-64 | `nil` exactly when the sanitised source has no match. Otherwise a non-empty word taken from the leftmost match. |
| Runs.Run.SetLog | app/models/run.rb:66-69 | Builds the collection when absent. Then it either stores the sanitised, all-ASCII log or, for `nil`, raises. Nothing else changes. |
| Runs.Run.TotalPoints | app/models/run.rb:43-45 | The stored total, with `nil` reading as 0. |
| Runs.Run.UpdateTotalPoints | app/models/run.rb:84-86 | Stores the rounded total of the status. After the call, the total reads in [0, 100], and 100 when all tests passed. Nothing else changes. |
| Runs.Run.UpdateTimeAndMem | app/models/run.rb:88-96 | Raises without a collection. A `nil` log keeps the metrics. Otherwise both maxima of the log are stored, and an empty log clears both. Nothing else changes. |
| Runs.Run.BeforeSave | app/models/run.rb:31 | Runs the total, then the metrics. The total is stored even when the metrics step raises. |

## Left out

- ActiveRecord persistence, the `belongs_to`/`has_one` associations and the
  database round trip are not modelled. The blob collection is a value held
  in a field of the run.
- The `during_contest` scope is a database query and is not modelled.
- `validates_inclusion_of`, `validates_presence_of`, the language constants
  and `self.languages` are not modelled. They are configuration data with no
  behaviour to prove.
- `source_file=` reads an uploaded file, which is I/O. The model starts from
  the content it would pass to `source_code=`.
- `log` (the reader) is not a separate member. `UpdateTimeAndMem` reads the
  collection directly and models the raise on a missing collection.
- `points_float`, `points` and `total_points_float` are modelled as
  functions of the status in `Scoring`, not as instance members of `Run`.
- A `nil` status is not modelled (`status.split` would raise). The status is
  always a string.
- Metrics.ParseDecimal: BigDecimal errors on a malformed capture, such as a
  lone `.` or several dots, are not modelled. The model reads the longest
  `digits[.digits]` prefix instead.
- Scoring.PerTest: BigDecimal precision limits are not modelled. `100 / n`
  is an exact rational. Ruby rounds the quotient to a finite number of
  digits. So when the exact total is a whole number plus exactly one half
  (6 passed tests out of 48 gives 12.5), the rounded Ruby sum can fall on
  either side of the tie. The model rounds the exact value.
- Ruby string encodings are not modelled beyond bytes. Stored blobs are byte
  sequences, and the sanitised text is ASCII. Case folding and `\w` are
  therefore the ASCII ones.
- Rails callback halting on a `false` return is not modelled. Neither
  callback returns `false`.
