# rust-shell: one line at a time

A model of the core of a small interactive shell written in Rust. The whole
program is one `main` (`src/main.rs`). It prints the prompt `$ `, reads a line
and trims it. It then splits the line on single spaces and dispatches on the
first word:

- `exit` leaves the loop;
- `echo` prints the other words joined by single spaces;
- `type X` says whether `X` is in the builtin table `["exit", "echo", "type"]`;
- anything else prints the whole trimmed line followed by `: command not found`.

The model has three modules:

- `Text` (`text.dfy`) holds the standard-library string operations the step
  uses: `str::trim` (with the exact Unicode White_Space set of
  `char::is_whitespace`), `str::split(' ')` and `[&str]::join(" ")`. It proves
  that splitting and joining are inverse to each other, and it characterises
  trimming and the first two words of a split.
- `Shell` (`shell.dfy`) holds the builtin table and the per-line step,
  `Step(line): Outcome`. An `Outcome` is `Break`, `Print(text)`, or `Panic`.
  `Panic` stands for the out-of-bounds index of a bare `type`. The lemmas give
  the result for each kind of first word, both ways where there is an "exactly
  when".
- `Repl` (`repl.dfy`) holds the loop of `main` as the method `ReadEvalLoop`,
  run over a given sequence of input lines. The method is proved against the
  specification function `Session`, which is `Run` applied to the step
  outcomes of the lines, and against `Screen`, which is the text standard
  output shows. The lemmas cover the rest: the loop stops at the first `exit`,
  never reads past the line that ended it, and writes one prompt per read and
  one output line per line that printed.

## Model

| member | source | states |
|---|---|---|
| `Text.LeadingWhitespace` | src/main.rs:14 | the count of leading characters that `trim` drops: all of them are whitespace, and the next character (if any) is not |
| `Text.TrailingWhitespace` | src/main.rs:14 | the same for the whitespace `trim` drops at the back |
| `Text.Trim` | src/main.rs:14 | the trimmed line is empty or neither starts nor ends with whitespace |
| `Text.TrimDropsWhitespace` | src/main.rs:14 | the trimmed line is a contiguous piece of the line with only whitespace before and after it |
| `Text.TrimSurrounded` | src/main.rs:14 | trimming is determined by that property: any piece with whitespace around it and no whitespace at its ends is the result (so trimming is idempotent, and a blank line trims to the empty string) |
| `Text.Split` | src/main.rs:14 | `split(' ')` always gives at least one piece, even for an empty line, so `cmd[0]` is always defined; no piece holds a space |
| `Text.SplitCount` | src/main.rs:14 | a line with n spaces splits into n + 1 pieces, so runs of spaces give empty pieces |
| `Text.SplitThenJoin` | src/main.rs:14 | joining the pieces with `" "` gives back the trimmed line exactly |
| `Text.JoinThenSplit` | src/main.rs:18 | splitting a `" "`-join of pieces without spaces gives back the pieces |
| `Text.SplitWord` | src/main.rs:14 | a word without spaces splits into itself alone |
| `Text.SplitAfterWord` | src/main.rs:14-15 | a word followed by a space is the first piece, and the remaining pieces (`cmd[1..]`) are the split of what follows the space |
| `Text.FirstPiece` | src/main.rs:16 | `cmd[0]` is `w` exactly when the trimmed line is `w` or starts with `w` and a space |
| `Text.SecondPiece` | src/main.rs:19 | when the line begins with the words `w` and `x`, `cmd[0]` is `w` and `cmd[1]` is `x`, whatever follows |
| `Shell.StepBreaks` | src/main.rs:16-17 | a line leaves the loop exactly when its first word is `exit`, whatever arguments follow |
| `Shell.StepEcho` | src/main.rs:15-18 | `echo` prints the trimmed line without `echo` and its one space, with inner runs of spaces kept; a bare `echo` prints the empty string |
| `Shell.StepType` | src/main.rs:19-23 | `type X` prints `X is a shell builtin` when X is `exit`, `echo` or `type`, and `X: not found` otherwise; only the second word is consulted |
| `Shell.StepPanics` | src/main.rs:19 | the step panics exactly when the trimmed line is `type` alone (the index `cmd[1]` is out of bounds) |
| `Shell.BareTypePanics` | src/main.rs:19 | a trimmed line that is `type` alone aborts, since it has no second word to index |
| `Shell.PanicIsBareType` | src/main.rs:14-19 | only a bare `type` aborts: `type` followed by a space and any argument, even an empty one, has a second word |
| `Shell.StepUnknown` | src/main.rs:24 | any other first word prints the whole trimmed line followed by `: command not found` |
| `Shell.StepBlank` | src/main.rs:24 | an empty or whitespace-only line prints `: command not found` |
| `Repl.Run` | src/main.rs:7-26 | output line j belongs to input line j; a loop that ran out of input printed one line per input line; a loop that ended did so at the line right after the last one that printed, which breaks or panics |
| `Repl.ReadEvalLoop` | src/main.rs:7-26 | the loop over the input lines produces the session's printed lines and ending, and writes exactly the session's standard output |
| `Repl.RunStopsAtFirstBreak` | src/main.rs:17 | if every line before line k printed and line k breaks, the loop printed exactly k lines and ended by exiting |
| `Repl.StopsAtFirstExit` | src/main.rs:16-17 | the first line whose first word is `exit` ends the session; each earlier line (none of them a bare `type`) printed its step's text |
| `Repl.RunIgnoresAfterEnd` | src/main.rs:17 | outcomes after the one that ended the loop are never looked at |
| `Repl.IgnoresLinesAfterEnd` | src/main.rs:17 | appending input after the line that ended the session changes nothing |
| `Repl.RunConcat` | src/main.rs:12-13 | nothing is carried from one line to the next: after reading all of one input without ending, the loop goes on with more input as if it had started there |
| `Repl.ScreenIsShownLines` | src/main.rs:8-9 | standard output is, for each line read and in order, the prompt `$ ` followed by that line's output and newline; no other line contributes |

## Left out

- Terminal I/O: reading standard input, writing and flushing standard output, and the `unwrap` calls on them. Input is a given sequence of lines and output is a returned string.
- End of input: at end of file `read_line` leaves the buffer empty, and the real loop would print `$ : command not found` forever. The model's loop stops once the given lines run out (`InputExhausted`) and writes no further prompt.
- The panic message and the process exit status after a panic are not modelled; the loop simply ends with `Panicked`.
- Unicode handling beyond characters: strings are sequences of Unicode scalar values. Rust's byte-level `String` is not modelled, and neither is invalid UTF-8 input (which makes `read_line` fail).
