/** The shell's `main`: print a prompt, read a line, run one step, until a line
    says `exit`. Standard input is given as the sequence of lines it delivers;
    standard output is the string the loop writes. */
module Repl {
  import opened Text
  import opened Shell

  /** How the loop ended: through `exit`, through the panic of a bare `type`,
      or because the given input ran out. */
  datatype Ending = Exited | Panicked | InputExhausted

  /** The lines the session printed, in order, and how it ended. */
  datatype Transcript = Transcript(printed: seq<string>, end: Ending)

  /** The loop over the outcomes of the lines it reads: each line that prints
      is recorded and the next line is read; the first line that breaks or
      panics ends the loop. Output line j belongs to input line j, and the line
      that ended the loop comes right after the last one that printed. */
  function Run(outcomes: seq<Outcome>): (r: Transcript)
    ensures |r.printed| <= |outcomes|
    ensures forall j {:trigger r.printed[j]} :: 0 <= j < |r.printed| ==> outcomes[j] == Print(r.printed[j])
    ensures r.end == InputExhausted ==> |r.printed| == |outcomes|
    ensures r.end == Exited ==> |r.printed| < |outcomes| && outcomes[|r.printed|] == Break
    ensures r.end == Panicked ==> |r.printed| < |outcomes| && outcomes[|r.printed|] == Panic
  {
    if outcomes == [] then Transcript([], InputExhausted)
    else
      match outcomes[0]
      case Break => Transcript([], Exited)
      case Panic => Transcript([], Panicked)
      case Print(text) =>
        var rest := Run(outcomes[1..]);
        Transcript([text] + rest.printed, rest.end)
  }

  /** The step's outcome for each input line. */
  function Outcomes(lines: seq<string>): seq<Outcome> {
    seq(|lines|, j requires 0 <= j < |lines| => Step(lines[j]))
  }

  /** The session over the input `lines`. */
  function Session(lines: seq<string>): Transcript {
    Run(Outcomes(lines))
  }

  /** The lines read: one per printed line, plus the line that ended the loop. */
  function LinesRead(t: Transcript): nat {
    |t.printed| + if t.end == InputExhausted then 0 else 1
  }

  /** What standard output shows for printed lines `printed`: each read is
      preceded by the prompt `$ `, each printed line ends with a newline. */
  function Prompted(printed: seq<string>): string {
    if printed == [] then ""
    else Prompted(printed[..|printed| - 1]) + "$ " + printed[|printed| - 1] + "\n"
  }

  /** The whole of standard output: a session that broke or panicked also
      printed the prompt before reading its last line. */
  function Screen(t: Transcript): string {
    Prompted(t.printed) + if t.end == InputExhausted then "" else "$ "
  }

  /** The loop of `main`, over a given input. It writes a prompt before every
      read, stops at the first `exit` (or at a panic), and writes exactly one
      line of output for each line read before that. */
  method ReadEvalLoop(lines: seq<string>) returns (stdout: string, printed: seq<string>, end: Ending)
    ensures Transcript(printed, end) == Session(lines)
    ensures stdout == Screen(Transcript(printed, end))
  {
    stdout, printed, end := "", [], InputExhausted;
    ghost var outcomes := Outcomes(lines);
    var i := 0;
    while i < |lines|
      invariant 0 <= i <= |lines| && i == |printed|
      invariant Run(outcomes) == Resume(printed, Run(outcomes[i..]))
      invariant stdout == Prompted(printed)
    {
      stdout := stdout + "$ ";
      var command := lines[i];
      var outcome := Step(command);
      assert outcomes[i] == outcome;
      RunFrom(outcomes, i, printed);
      match outcome
      case Break =>
        end := Exited;
        break;
      case Panic =>
        end := Panicked;
        break;
      case Print(text) =>
        PromptedSnoc(printed, text);
        stdout := stdout + text + "\n";
        printed := printed + [text];
        i := i + 1;
    }
    if i == |lines| {
      assert outcomes[i..] == [];
    }
  }

  /** The loop's state after some lines printed `printed` and the rest of the
      input ran as `rest`. */
  function Resume(printed: seq<string>, rest: Transcript): Transcript {
    Transcript(printed + rest.printed, rest.end)
  }

  /** One step of the loop, seen from line `i` on. */
  lemma RunFrom(outcomes: seq<Outcome>, i: nat, printed: seq<string>)
    requires i < |outcomes|
    ensures outcomes[i].Print? ==> Resume(printed, Run(outcomes[i..]))
                                   == Resume(printed + [outcomes[i].text], Run(outcomes[i + 1..]))
    ensures outcomes[i] == Break ==> Resume(printed, Run(outcomes[i..])) == Transcript(printed, Exited)
    ensures outcomes[i] == Panic ==> Resume(printed, Run(outcomes[i..])) == Transcript(printed, Panicked)
  {
    assert outcomes[i..][0] == outcomes[i] && outcomes[i..][1..] == outcomes[i + 1..];
    if outcomes[i].Print? {
      var after := Run(outcomes[i + 1..]);
      assert printed + ([outcomes[i].text] + after.printed) == (printed + [outcomes[i].text]) + after.printed;
    }
  }

  /** Printing one more line adds its prompt, text and newline at the end. */
  lemma PromptedSnoc(printed: seq<string>, text: string)
    ensures Prompted(printed + [text]) == Prompted(printed) + "$ " + text + "\n"
  {
    assert (printed + [text])[..|printed|] == printed;
  }

  /** The loop stops at the first line that breaks: if every earlier line
      printed, the loop printed exactly those lines and ended by exiting. */
  lemma {:induction false} RunStopsAtFirstBreak(outcomes: seq<Outcome>, k: nat)
    requires k < |outcomes| && outcomes[k] == Break
    requires forall j :: 0 <= j < k ==> outcomes[j].Print?
    ensures Run(outcomes).end == Exited && |Run(outcomes).printed| == k
  {
    if k > 0 {
      RunStopsAtFirstBreak(outcomes[1..], k - 1);
    }
  }

  /** The same for the input lines: the first `exit` ends the session, whatever
      its arguments, and each earlier line printed its step's text. */
  lemma StopsAtFirstExit(lines: seq<string>, k: nat)
    requires k < |lines| && BeginsWithWord(Trim(lines[k]), "exit")
    requires forall j :: 0 <= j < k ==> !BeginsWithWord(Trim(lines[j]), "exit") && Trim(lines[j]) != "type"
    ensures Session(lines).end == Exited && |Session(lines).printed| == k
    ensures forall j :: 0 <= j < k ==> Step(lines[j]) == Print(Session(lines).printed[j])
  {
    var outcomes := Outcomes(lines);
    StepBreaks(lines[k]);
    forall j | 0 <= j < k ensures outcomes[j].Print? {
      StepBreaks(lines[j]);
      StepPanics(lines[j]);
    }
    RunStopsAtFirstBreak(outcomes, k);
  }

  /** No outcome after the one that ended the loop is looked at. */
  lemma {:induction false} RunIgnoresAfterEnd(outcomes: seq<Outcome>, more: seq<Outcome>)
    requires Run(outcomes).end != InputExhausted
    ensures Run(outcomes + more) == Run(outcomes)
  {
    assert (outcomes + more)[0] == outcomes[0];
    if outcomes[0].Print? {
      assert (outcomes + more)[1..] == outcomes[1..] + more;
      RunIgnoresAfterEnd(outcomes[1..], more);
    }
  }

  /** The outcomes of two pieces of input, one after the other. */
  lemma OutcomesConcat(lines: seq<string>, more: seq<string>)
    ensures Outcomes(lines + more) == Outcomes(lines) + Outcomes(more)
  {
  }

  /** No line after the one that ended the session is read: input appended
      after it changes nothing. */
  lemma IgnoresLinesAfterEnd(lines: seq<string>, more: seq<string>)
    requires Session(lines).end != InputExhausted
    ensures Session(lines + more) == Session(lines)
  {
    OutcomesConcat(lines, more);
    RunIgnoresAfterEnd(Outcomes(lines), Outcomes(more));
  }

  /** A loop that reads all of its input without ending carries on with more
      input as if it had started there. */
  lemma {:induction false} RunConcat(outcomes: seq<Outcome>, more: seq<Outcome>)
    requires Run(outcomes).end == InputExhausted
    ensures Run(outcomes + more)
         == Transcript(Run(outcomes).printed + Run(more).printed, Run(more).end)
  {
    if outcomes == [] {
      assert outcomes + more == more;
    } else {
      var text := outcomes[0].text;
      assert (outcomes + more)[0] == Print(text);
      assert (outcomes + more)[1..] == outcomes[1..] + more;
      RunConcat(outcomes[1..], more);
      var front, back := Run(outcomes[1..]).printed, Run(more).printed;
      assert [text] + (front + back) == ([text] + front) + back;
    }
  }

  /** What one line read contributes to standard output: the prompt written
      before the read, then the line's output if it printed. */
  function Shown(outcome: Outcome): string {
    "$ " + match outcome
           case Print(text) => text + "\n"
           case _ => ""
  }

  /** The contributions of a run of lines, in order. */
  function ShownAll(outcomes: seq<Outcome>): string {
    if outcomes == [] then "" else Shown(outcomes[0]) + ShownAll(outcomes[1..])
  }

  /** The prompted output of a first line, followed by that of the rest. */
  lemma {:induction false} PromptedCons(text: string, printed: seq<string>)
    ensures Prompted([text] + printed) == "$ " + text + "\n" + Prompted(printed)
  {
    if printed != [] {
      var init := printed[..|printed| - 1];
      assert ([text] + printed)[..|printed|] == [text] + init;
      PromptedCons(text, init);
    }
  }

  /** A line that printed puts its prompt, text and newline in front of what
      the rest of the session shows. */
  lemma ScreenAfterPrint(text: string, rest: Transcript)
    ensures Screen(Transcript([text] + rest.printed, rest.end)) == Shown(Print(text)) + Screen(rest)
  {
    PromptedCons(text, rest.printed);
    var line, tail := "$ " + text + "\n", if rest.end == InputExhausted then "" else "$ ";
    assert (line + Prompted(rest.printed)) + tail == line + (Prompted(rest.printed) + tail);
  }

  /** Standard output is, line by line, a prompt before every read followed by
      that line's output: exactly the lines read contribute, in order. */
  lemma {:induction false} ScreenIsShownLines(outcomes: seq<Outcome>)
    ensures LinesRead(Run(outcomes)) <= |outcomes|
    ensures Screen(Run(outcomes)) == ShownAll(outcomes[..LinesRead(Run(outcomes))])
  {
    if outcomes != [] {
      var r := Run(outcomes);
      var n := LinesRead(r);
      match outcomes[0]
      case Print(text) =>
        var rest := Run(outcomes[1..]);
        assert r == Transcript([text] + rest.printed, rest.end);
        ScreenIsShownLines(outcomes[1..]);
        ScreenAfterPrint(text, rest);
        var read := outcomes[..n];
        assert read[0] == outcomes[0] && read[1..] == outcomes[1..][..LinesRead(rest)];
      case Break =>
        assert outcomes[..n] == [Break];
      case Panic =>
        assert outcomes[..n] == [Panic];
    }
  }
}
