# kossel-calibrate: the reply decoder and the sampling loop

`calibrate.py` drives a delta ("Kossel") 3D printer through a Duet web
interface. It sends three G-code commands and reads the status line the
printer sends back for each one:

- `G32` runs auto-calibration. Its reply gives the number of factors and
  points and the deviation before and after.
- `M665` reports the delta kinematics: diagonal rod length, delta radius,
  homed height, bed radius and three tower angle corrections in degrees.
- `M666` reports the endstop adjustments and the bed tilt in percent.

The `Kossel` client turns each line into a record. `_parse_G32`,
`_parse_M665` and `_parse_M666` all call `_parse_answer`. That function
matches the line against a regular expression anchored at the start, and
raises `UnexpectedAnswerError` when it does not match. `m665_config` and
`m666_config` write records back as configuration commands. `main` runs
five sampling iterations. Each one appends the three records to three
lists and then saves the lists.

The model is written in Dafny, one module per concern:

- `Results` (results.dfy) holds the `Option` and `Result` wrappers.
- `Decimals` (decimals.dfy) covers digit runs and decimals as written on the
  wire, with their exact values. `NumberValue` is `int()`. `Value` is
  `float()` without rounding.
- `Patterns` (patterns.dfy) handles the shape of regular expression the three
  parsers use: literal text, each literal followed by a `(\d+)` or
  `(-?\d+\.\d+)` group, and an optional trailing literal.
  - `MatchPattern` is a greedy left-to-right scanner.
  - Each literal after a group starts with a non-digit. So the scanner agrees
    with Python's backtracking `re.match`.
  - `MatchPatternExactly` characterises the scanner: it reports `(caps, rest)`
    exactly when the input is the pattern's text for `caps` followed by
    `rest`, and no group could absorb `rest`.
- `Replies` (replies.dfy) holds `_parse_answer`, the three parsers, their
  patterns and their records. For each reply, a string builder
  (`G32Reply`, `M665Reply`, `M666Reply`) writes the line the way the printer
  phrases it. Lemmas connect each parser to its builder in both directions:
  - the round trip;
  - soundness;
  - acceptance if and only if the reply begins with such a line;
  - behaviour under appended text.
- `Config` (config.dfy) holds the two configuration formatters. `Words`
  splits a command at its spaces, the way `str.split(' ')` does, so the lemmas
  can say which letter carries which field.
- `Sampling` (sampling.dfy) models the loop of `main`. The client is an
  oracle, and the history read at start-up is a parameter. `Iteration` is one
  pass of the loop body, `RunFor` runs `n` passes and stops at the first
  failure, and `SamplingLoop` is the loop itself, proved equal to
  `RunFor(initial, 5, client)`.
- `Fixtures` (fixtures.dfy) covers the canned replies of `KosselTestStatic`.
  It pins down the exact records they decode to and a complete run against
  them. It also holds concrete cases of the decimal grammar.

Three behaviours of the code that a reader might not expect:

- `gap` is `deviation_after - deviation_before` (calibrate.py:89). For the
  fixture this is -0.029, not +0.029.
- The error message is
  `"Could not match  : " + s + "\nwith the pattern : " + regexp`. It has two
  spaces before the first colon and a newline (calibrate.py:79).
- Trailing text is not always ignored. For G32 the pattern ends in a digit
  run, and `re.match` is greedy, so trailing digits become part of the "after"
  deviation. `Fixtures.StaticG32Absorbs` shows this.

## Model

| member | source | states |
|---|---|---|
| Replies.ParseAnswer | calibrate.py:72-79 | A successful match returns one capture per group, of the group's kind, and the line they spell is a prefix of the reply. A failed match returns `UnexpectedAnswerError` whose expression is the reply and whose message is `"Could not match  : " + s + "\nwith the pattern : " + regexp`. |
| Replies.ParseAnswerAccepts | calibrate.py:73-76 | The match succeeds if and only if the reply begins with some text of the pattern. The match is anchored at the start and open at the end. |
| Replies.PatternsDelimited | calibrate.py:83-107 | In all three patterns, every literal that follows a group starts with a non-digit. So no group can run into the next literal. |
| Patterns.MatchPattern | calibrate.py:73-74 | A match splits the reply into the pattern's text for the captured groups and an unmatched remainder. |
| Patterns.MatchPatternExactly | calibrate.py:73-74 | `p.match(s)` reports the groups `caps` and the unmatched remainder `rest` exactly when `s` is the pattern's text for `caps` followed by `rest`, and a final group could not absorb `rest`. So the decomposition is unique. |
| Patterns.MatchPatternFails | calibrate.py:74-79 | `p.match(s)` returns `None` exactly when `s` begins with no text of the pattern. |
| Patterns.MatchPatternExtend | calibrate.py:74 | Appending text to a matched reply keeps the groups and extends the remainder. The one exception is a pattern that ends in a group, when the appended text starts with a digit. |
| Patterns.MatchDigitsExactly | calibrate.py:83 | `(\d+)` captures `n` and leaves `rest` exactly when the input is `n` followed by something that does not start with a digit. |
| Patterns.MatchDecimalExactly | calibrate.py:94 | `(-?\d+\.\d+)` captures `d` and leaves `rest` exactly when the input is `d`'s text followed by something that does not start with a digit. Each text has one reading. |
| Patterns.MatchDecimalFails | calibrate.py:107 | The decimal group fails exactly when the input does not begin with an optional minus, digits, a point and digits. |
| Replies.ParseG32 | calibrate.py:81-90 | On success, `gap` is `deviation_after - deviation_before`. On failure, the error names the reply and the G32 pattern. |
| Replies.G32RoundTrip | calibrate.py:81-90 | A calibration line `"Calibrated " + n + " factors using " + p + " points, deviation before " + d1 + " after " + d2`, followed by text that does not start with a digit, parses to `int(n)`, `int(p)`, `float(d1)`, `float(d2)` and gap `float(d2) - float(d1)`. |
| Replies.G32Sound | calibrate.py:81-90 | Every accepted reply is a calibration line followed by a non-digit or nothing. Its record is that line's numbers as in the round trip. |
| Replies.G32Accepts | calibrate.py:82-83 | `_parse_G32` succeeds if and only if the reply begins with a calibration line. |
| Replies.G32Extend | calibrate.py:83 | Appending text that does not start with a digit to an accepted G32 reply leaves the record unchanged. |
| Replies.ParseM665 | calibrate.py:92-103 | On failure, the error names the reply and the M665 pattern. |
| Replies.M665RoundTrip | calibrate.py:92-103 | A kinematics line followed by any text parses to its seven decimals, in the order diagonal, delta radius, homed height, bed radius, x, y, z. Each angle is followed by a degree sign. |
| Replies.M665Sound | calibrate.py:92-103 | Every accepted reply begins with a kinematics line. |
| Replies.M665Accepts | calibrate.py:93-94 | `_parse_M665` succeeds if and only if the reply begins with a kinematics line. |
| Replies.M665Extend | calibrate.py:94 | Appending any text to an accepted M665 reply leaves the record unchanged, because the pattern ends in a degree sign. |
| Replies.ParseM666 | calibrate.py:105-114 | On failure, the error names the reply and the M666 pattern. |
| Replies.M666RoundTrip | calibrate.py:105-114 | An endstop line followed by any text parses to its five decimals, in the order ea_x, ea_y, ea_z, tx, ty. The tilt values are followed by `%`. |
| Replies.M666Sound | calibrate.py:105-114 | Every accepted reply begins with an endstop line. |
| Replies.M666Accepts | calibrate.py:106-107 | `_parse_M666` succeeds if and only if the reply begins with an endstop line. |
| Replies.M666Extend | calibrate.py:107 | Appending any text to an accepted M666 reply leaves the record unchanged, because the pattern ends in `%`. |
| Decimals.Value | calibrate.py:87-88 | A decimal's value has the decimal's sign. The integer digits give the integer part of its magnitude. |
| Decimals.NumberValue | calibrate.py:85-86 | `int()` of a run of `n` digits is below ten to the `n`. |
| Decimals.NumberValueConcat | calibrate.py:85-86 | `int()` of a digit string `a + b` is `int(a)` shifted left by the length of `b`, plus `int(b)`. |
| Decimals.FractionValueScaled | calibrate.py:87-88 | The fraction digits are worth their value as a whole number divided by ten to the number of digits. |
| Decimals.ValueScaled | calibrate.py:87-88 | A decimal's value is its mantissa over a power of ten: all its digits, read as one whole number with the point dropped, divided by ten to the number of fraction digits, with the sign. |
| Decimals.ValueTrailingZero | calibrate.py:87 | `float()` ignores a trailing zero in the fraction, so `0.30` and `0.3` read the same. |
| Decimals.FirstFractionDigit | calibrate.py:88 | The first fraction digit counts tenths and fixes the fraction to within a tenth. |
| Config.M665Config | calibrate.py:65-66 | The command starts with `M665 R`. Which letter carries which field is stated by `M665ConfigWords`. |
| Config.M665ConfigIgnoresZ | calibrate.py:66 | Changing `z` never changes the `M665` command: the format string has no `{z}` field. |
| Config.M665ConfigReadBack | calibrate.py:66 | If no rendered number contains a space, two records give the same `M665` command exactly when their delta radius, diagonal, bed radius, homed height, x and y render alike. |
| Config.M665ConfigJoined | calibrate.py:66 | The `M665` command is the seven words `M665`, `R` delta radius, `L` diagonal, `B` bed radius, `H` homed height, `X` x and `Y` y, joined by single spaces. |
| Config.M665ConfigWords | calibrate.py:66 | If no rendered number contains a space, splitting the `M665` command at its spaces gives exactly `M665`, then `R` with the delta radius, `L` with the diagonal, `B` with the bed radius, `H` with the homed height, `X` with x and `Y` with y, in that order. |
| Config.M666Config | calibrate.py:68-69 | The command starts with `M666 X`. Which letter carries which adjustment is stated by `M666ConfigWords`. |
| Config.M666ConfigIgnoresTilt | calibrate.py:69 | Changing `tx` or `ty` never changes the `M666` command: the format string names only `ea_x`, `ea_y` and `ea_z`. |
| Config.M666ConfigReadBack | calibrate.py:69 | If no rendered number contains a space, two records give the same `M666` command exactly when their three adjustments render alike. |
| Config.M666ConfigJoined | calibrate.py:69 | The `M666` command is the four words `M666`, `X` ea_x, `Y` ea_y and `Z` ea_z, joined by single spaces. |
| Config.M666ConfigWords | calibrate.py:69 | If no rendered number contains a space, splitting the `M666` command at its spaces gives exactly `M666`, then `X` with ea_x, `Y` with ea_y and `Z` with ea_z. |
| Sampling.TextClientAnswers | calibrate.py:55-62 | With `g32()`, `m665()` and `m666()` parsing the replies to their own commands, iteration `i` is answered exactly when each reply begins with its line. Otherwise the error is that of the first command, in the order G32, M665, M666, whose reply does not; it carries that reply and its pattern's mismatch message. |
| Sampling.Iteration | calibrate.py:178-187 | An iteration completes exactly when all three commands answer, and then it appends exactly their three records. If G32 fails, nothing is appended. If M665 fails, only the G32 record is appended. If M666 fails, only the G32 and M665 records are appended. The error is always that of the failing command. |
| Sampling.FinishedGrowth | calibrate.py:177-191 | After `n` completed iterations, each list has grown by `n`. The `i`-th new record is the answer of iteration `i`. |
| Sampling.AbortedSnapshot | calibrate.py:177-191 | A run that fails in iteration `k + 1` leaves the saved copy equal to the lists after the `k` completed iterations. The lists in memory hold that iteration's partial appends. |
| Sampling.AbortedIsFinal | calibrate.py:229-233 | The error propagates out of the loop: once a run has aborted, later iterations do not run. |
| Sampling.AnsweringClientFinishes | calibrate.py:177-191 | A client that answers every command lets every iteration complete. |
| Sampling.SteadyClientRun | calibrate.py:177-191 | A client that always gives the same three records fills each list with `n` copies of them. |
| Sampling.SamplingLoop | calibrate.py:177-191 | The loop of `main`, statement by statement, computes the five-iteration run. When it finishes, every list has grown by five. |
| Fixtures.StaticG32Verbatim | calibrate.py:119 | The G32 fixture text, written in pieces, equals the source literal. |
| Fixtures.StaticM665Verbatim | calibrate.py:120 | The M665 fixture text, written in pieces, equals the source literal, degree signs included. |
| Fixtures.StaticM666Verbatim | calibrate.py:121 | The M666 fixture text, written in pieces, equals the source literal. |
| Fixtures.StaticG32 | calibrate.py:119 | The G32 fixture, followed by text that does not start with a digit, decodes to 6 factors, 13 points, 0.186 before, 0.157 after and gap -0.029. |
| Fixtures.StaticG32Absorbs | calibrate.py:83 | A digit appended to the G32 fixture is taken into the "after" deviation: it reads 0.1575 and the gap reads -0.0285. |
| Fixtures.StaticM665 | calibrate.py:120 | The M665 fixture, followed by anything, decodes to 215.000, 104.760, 234.554, 85.0, 0.643, -0.069 and 0.000. |
| Fixtures.StaticM666 | calibrate.py:121 | The M666 fixture, followed by anything, decodes to 0.54, -0.85, 0.30, 0.00 and 0.00. |
| Fixtures.DecimalNeedsWhole | calibrate.py:94 | The decimal group rejects `.5` and `-.5`. |
| Fixtures.DecimalNeedsPoint | calibrate.py:94 | The decimal group rejects `5`. |
| Fixtures.DecimalNeedsFraction | calibrate.py:94 | The decimal group rejects `5.`. |
| Fixtures.DecimalSigns | calibrate.py:83 | The decimal group rejects `+1.0` and reads `-1.50x` as -1.50 followed by `x`. The digit group rejects `-1`. |
| Fixtures.StaticClientG32 | calibrate.py:124-125 | In every iteration, the static client's `g32()` returns the fixture record. |
| Fixtures.StaticClientM665 | calibrate.py:124-125 | In every iteration, the static client's `m665()` returns the fixture record. |
| Fixtures.StaticClientM666 | calibrate.py:124-125 | In every iteration, the static client's `m666()` returns the fixture record. |
| Fixtures.StaticRun | calibrate.py:117-125 | A run of any length against the static client never fails. Each list grows by copies of the fixture records. |

## Left out

- `sendgcode` (calibrate.py:44-52) is left out: the HTTP request and the one-second polling until the reply is non-empty are network I/O and sleeping. The reply text is a parameter of `Sampling.TextClient`, and the client as a whole is an oracle.
- Loading and saving `objs.pkl` with `pickle` (calibrate.py:174-175, 190-191) is file I/O. The loaded history is a parameter of the run, and saving is a copy of the three lists. A missing file raises `IOError` before the loop; that path is not modelled.
- `KosselTestRandom` (calibrate.py:128-159) draws random floats, so it is not modelled. Its `gap` is `b - a`, before minus after, which is the opposite sign to `_parse_G32`'s.
- The regression plots (calibrate.py:193-227) are not modelled. They are matplotlib and scikit-learn numerics.
- `uprint`, the stream re-wrapping and the `print` echoes (calibrate.py:12-17, 180-187, 230-232) are output plumbing and are not modelled.
- Decimals.Value: gives the exact rational value of the text, not the nearest IEEE double that `float()` returns. The subtraction for `gap` is exact too. The sign of zero is not tracked, so `-0.0` and `0.0` are the same value.
- Config.M665Config: the way `str.format` renders a float is the parameter `show`. The read-back lemmas assume only that a rendering never contains a space. They relate commands to renderings, not to values: Python 2 renders a float to 12 significant digits, so two different values can render alike and give the same command.
- Config.M666Config: renders floats through the same `show` parameter as `M665Config`.
- Replies.ParseM665: its own contract states only the error case. The record it returns is stated by `M665RoundTrip`, `M665Sound` and `M665Accepts`.
- Replies.ParseM666: its own contract states only the error case. The record it returns is stated by `M666RoundTrip`, `M666Sound` and `M666Accepts`.
- Patterns.MatchPattern: models `re.match` only for the pattern shape the three parsers use. The regular expression is given as a `Pattern` value, and `Source` writes it back as text for the error message.
- Python 2 `unicode` versus `str` is not modelled. Strings are sequences of characters, and `°` is the character U+00B0.
