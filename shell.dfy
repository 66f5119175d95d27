/** One turn of the shell's read-evaluate loop: what a single input line does. */
module Shell {
  import opened Text

  /** The builtin table consulted by `type`. */
  const ShellBuiltins: seq<string> := ["exit", "echo", "type"]

  /** What one line does: leave the loop, print one line of text (the text
      without the newline that printing adds), or abort the process because
      `type` was given no argument and the second word was indexed out of bounds. */
  datatype Outcome = Break | Print(text: string) | Panic

  /** The line is trimmed and split on single spaces; the first word selects
      the action. */
  function Step(line: string): Outcome {
    var command := Trim(line);
    var cmd := Split(command);
    var args := cmd[1..];
    if cmd[0] == "exit" then Break
    else if cmd[0] == "echo" then Print(Join(args))
    else if cmd[0] == "type" then
      if |cmd| < 2 then Panic
      else if cmd[1] in ShellBuiltins then Print(cmd[1] + " is a shell builtin")
      else Print(cmd[1] + ": not found")
    else Print(command + ": command not found")
  }

  /** A line leaves the loop exactly when its first word is `exit`, whatever
      follows it. */
  lemma StepBreaks(line: string)
    ensures Step(line) == Break <==> BeginsWithWord(Trim(line), "exit")
  {
    FirstPiece(Trim(line), "exit");
  }

  /** `echo` prints the rest of the trimmed line after the word and its one
      space, with any further spaces kept; a bare `echo` prints an empty line. */
  lemma StepEcho(line: string)
    requires BeginsWithWord(Trim(line), "echo")
    ensures Step(line) == Print(if Trim(line) == "echo" then "" else Trim(line)[5..])
  {
    var t := Trim(line);
    RestPieces(t, "echo");
    if t != "echo" {
      SplitThenJoin(t[5..]);
    }
  }

  /** `type X` consults only the second word X: a builtin name is reported as
      one, anything else (an empty word included) as not found. */
  lemma StepType(line: string, x: string)
    requires ' ' !in x
    requires BeginsWithWord(Trim(line), "type " + x)
    ensures Step(line) == Print(if x in ShellBuiltins then x + " is a shell builtin"
                                else x + ": not found")
  {
    var cmd := Split(Trim(line));
    SecondPiece(Trim(line), "type", x);
    assert cmd[0] != "exit" && cmd[0] != "echo";
    assert cmd[1] == x;
  }

  /** The step aborts exactly when the trimmed line is the single word `type`. */
  lemma StepPanics(line: string)
    ensures Step(line) == Panic <==> Trim(line) == "type"
  {
    if Trim(line) == "type" {
      BareTypePanics(line);
    }
    if Step(line) == Panic {
      PanicIsBareType(line);
    }
  }

  /** A bare `type` indexes its missing second word and aborts. */
  lemma BareTypePanics(line: string)
    requires Trim(line) == "type"
    ensures Step(line) == Panic
  {
    SplitWord("type");
  }

  /** Nothing else aborts: `type` with any argument, even an empty one, does not. */
  lemma PanicIsBareType(line: string)
    requires Step(line) == Panic
    ensures Trim(line) == "type"
  {
    var t := Trim(line);
    var cmd := Split(t);
    assert cmd[0] == "type" && |cmd| < 2;
    FirstPiece(t, "type");
    RestPieces(t, "type");
  }

  /** Any other first word echoes the whole trimmed line, not only the word,
      in the not-found message. */
  lemma StepUnknown(line: string)
    requires !BeginsWithWord(Trim(line), "exit")
    requires !BeginsWithWord(Trim(line), "echo")
    requires !BeginsWithWord(Trim(line), "type")
    ensures Step(line) == Print(Trim(line) + ": command not found")
  {
    var t := Trim(line);
    FirstPiece(t, "exit");
    FirstPiece(t, "echo");
    FirstPiece(t, "type");
  }

  /** A blank line (whitespace only, or nothing) is an unknown command with an
      empty name. */
  lemma StepBlank(line: string)
    requires AllWhitespace(line)
    ensures Step(line) == Print(": command not found")
  {
  }
}
