/**
 * The loop of `main` with its terminal I/O taken out: it consumes the lines
 * that `read_input` would return, one per iteration, and collects what
 * `println!` would print. A `:q` or `:quit` ends the loop; a panic in `eval`
 * ends the process.
 */
module Repl {
  import opened Int32
  import opened Syntax
  import opened Numeral
  import opened Parse
  import opened Machine

  /** The two diagnostics, spelled as the program prints them. */
  const InvalidInput: string := "invailed input"
  const InvalidExpression: string := "invailed expression"

  /** The loop runs until a quit command or until `eval` panics. */
  datatype Status = Active | Terminated | Panicked(fault: Fault)

  /** What one iteration does with the line it has read. */
  datatype Reaction = Print(text: string) | Exit | Crash(fault: Fault)

  /** The body of the loop for one line: parse, then evaluate and print, or quit. */
  function React(build: Build, line: string): Reaction {
    match ParseInput(line)
    case None => Print(InvalidInput)
    case Some(Expression(ts)) =>
      (match Evaluate(build, ts)
       case Value(v) => Print(Show(v))
       case NoValue => Print(InvalidExpression)
       case Abort(f) => Crash(f))
    case Some(Command(Quit)) => Exit
  }

  /** Where the loop stands: its status, the lines printed and the number of lines read. */
  datatype Session = Session(status: Status, output: seq<string>, consumed: nat)

  /** One more iteration, given its reaction; once the loop has stopped, nothing more is read. */
  function Feed(s: Session, r: Reaction): Session {
    if !s.status.Active? then s
    else
      match r
      case Print(text) => Session(Active, s.output + [text], s.consumed + 1)
      case Exit => Session(Terminated, s.output, s.consumed + 1)
      case Crash(f) => Session(Panicked(f), s.output, s.consumed + 1)
  }

  /** The loop driven by a sequence of reactions, one per line offered. */
  function Play(rs: seq<Reaction>): Session
    decreases |rs|
  {
    if rs == [] then Session(Active, [], 0)
    else Feed(Play(rs[..|rs| - 1]), rs[|rs| - 1])
  }

  /** The reaction of every line, in order. */
  function Reactions(build: Build, lines: seq<string>): (rs: seq<Reaction>)
    ensures |rs| == |lines| && forall i :: 0 <= i < |lines| ==> rs[i] == React(build, lines[i])
  {
    seq(|lines|, i requires 0 <= i < |lines| => React(build, lines[i]))
  }

  /** The session after the lines have been offered to it in order. */
  function Transcript(build: Build, lines: seq<string>): Session {
    Play(Reactions(build, lines))
  }

  lemma TranscriptSnoc(build: Build, lines: seq<string>, i: nat)
    requires i < |lines|
    ensures Transcript(build, lines[..i + 1]) == Feed(Transcript(build, lines[..i]), React(build, lines[i]))
  {
    var rs := Reactions(build, lines[..i + 1]);
    assert rs[..i] == Reactions(build, lines[..i]);
  }

  /** A stopped loop ignores every further reaction. */
  lemma {:induction false} PlayHalted(a: seq<Reaction>, b: seq<Reaction>)
    requires !Play(a).status.Active?
    ensures Play(a + b) == Play(a)
  {
    if b == [] {
      assert a + b == a;
    } else {
      var b' := b[..|b| - 1];
      assert (a + b)[..|a + b| - 1] == a + b';
      PlayHalted(a, b');
    }
  }

  lemma ReactionsAppend(build: Build, a: seq<string>, b: seq<string>)
    ensures Reactions(build, a + b) == Reactions(build, a) + Reactions(build, b)
  {
    var ra, rb, rab := Reactions(build, a), Reactions(build, b), Reactions(build, a + b);
    assert forall i :: 0 <= i < |rab| ==> rab[i] == (ra + rb)[i];
  }

  /** A stopped session ignores every further line: nothing is read after `:q`. */
  lemma TranscriptHalted(build: Build, a: seq<string>, b: seq<string>)
    requires !Transcript(build, a).status.Active?
    ensures Transcript(build, a + b) == Transcript(build, a)
  {
    ReactionsAppend(build, a, b);
    PlayHalted(Reactions(build, a), Reactions(build, b));
  }

  /**
   * `main`'s loop: read a line, report a parse failure and continue, evaluate
   * an expression and print its value or a diagnostic, break on quit.
   */
  method SessionLoop(build: Build, lines: seq<string>) returns (output: seq<string>, status: Status, consumed: nat)
    ensures Session(status, output, consumed) == Transcript(build, lines)
  {
    output, status, consumed := [], Active, 0;
    while consumed < |lines|
      invariant consumed <= |lines|
      invariant Transcript(build, lines[..consumed]) == Session(Active, output, consumed)
    {
      var line := lines[consumed];
      TranscriptSnoc(build, lines, consumed);
      consumed := consumed + 1;
      var input := ParseInput(line);
      if input.None? {
        assert React(build, line) == Print(InvalidInput);
        output := output + [InvalidInput];
        continue;
      }
      match input.value
      case Expression(tokens) =>
        var result := Eval(build, tokens);
        if result.Abort? {
          assert React(build, line) == Crash(result.fault);
          status := Panicked(result.fault);
          break;
        }
        if result.NoValue? {
          assert React(build, line) == Print(InvalidExpression);
          output := output + [InvalidExpression];
          continue;
        }
        assert React(build, line) == Print(Show(result.v));
        output := output + [Show(result.v)];
      case Command(cmd) =>
        if cmd == Quit {
          assert React(build, line) == Exit;
          status := Terminated;
          break;
        }
    }
    if status.Active? {
      assert lines[..consumed] == lines;
    } else {
      assert lines == lines[..consumed] + lines[consumed..];
      TranscriptHalted(build, lines[..consumed], lines[consumed..]);
    }
  }

  /**
   * Each iteration before the loop stops prints exactly one line, in order,
   * namely the text of its reaction; the loop stops only at the last reaction
   * it took, and only because that reaction quit or crashed.
   */
  lemma {:induction false} PlayShape(rs: seq<Reaction>)
    ensures Play(rs).consumed <= |rs|
    ensures Play(rs).status.Active? ==> Play(rs).consumed == |rs|
    ensures |Play(rs).output| == if Play(rs).status.Active? then Play(rs).consumed else Play(rs).consumed - 1
    ensures forall i :: 0 <= i < |Play(rs).output| ==> rs[i] == Print(Play(rs).output[i])
    ensures Play(rs).status == Terminated ==> rs[Play(rs).consumed - 1] == Exit
    ensures Play(rs).status.Panicked? ==> rs[Play(rs).consumed - 1] == Crash(Play(rs).status.fault)
  {
    if rs != [] {
      var p := rs[..|rs| - 1];
      PlayShape(p);
      assert forall i :: 0 <= i < |p| ==> rs[i] == p[i];
    }
  }

  /**
   * Every line read while the session runs prints exactly one line, in order,
   * and that line is the line's own reaction; the session stops only on the
   * last line it read, and only because that line quit or panicked.
   */
  lemma TranscriptShape(build: Build, lines: seq<string>)
    ensures Transcript(build, lines).consumed <= |lines|
    ensures Transcript(build, lines).status.Active? ==> Transcript(build, lines).consumed == |lines|
    ensures |Transcript(build, lines).output| ==
      if Transcript(build, lines).status.Active? then Transcript(build, lines).consumed
      else Transcript(build, lines).consumed - 1
    ensures forall i :: 0 <= i < |Transcript(build, lines).output| ==>
      React(build, lines[i]) == Print(Transcript(build, lines).output[i])
    ensures Transcript(build, lines).status == Terminated ==>
      React(build, lines[Transcript(build, lines).consumed - 1]) == Exit
    ensures Transcript(build, lines).status.Panicked? ==>
      React(build, lines[Transcript(build, lines).consumed - 1]) == Crash(Transcript(build, lines).status.fault)
  {
    PlayShape(Reactions(build, lines));
  }

  /**
   * A quit command ends the session: it stops no later than the first quit
   * line, unless a panic stops it sooner, and when it terminates it is on a
   * quit line with no quit line before it.
   */
  lemma QuitEndsSession(build: Build, lines: seq<string>, k: nat)
    requires k < |lines| && ParseInput(lines[k]) == Some(Command(Quit))
    ensures !Transcript(build, lines).status.Active?
    ensures 1 <= Transcript(build, lines).consumed <= k + 1
    ensures Transcript(build, lines).status == Terminated ==>
      ParseInput(lines[Transcript(build, lines).consumed - 1]) == Some(Command(Quit)) &&
      forall j :: 0 <= j < Transcript(build, lines).consumed - 1 ==> ParseInput(lines[j]) != Some(Command(Quit))
  {
    TranscriptShape(build, lines);
    assert React(build, lines[k]) == Exit;
    var s := Transcript(build, lines);
    forall j | 0 <= j < s.consumed - 1
      ensures ParseInput(lines[j]) != Some(Command(Quit))
    {
      assert React(build, lines[j]) == Print(s.output[j]);
    }
    if s.status == Terminated {
      var last := lines[s.consumed - 1];
      assert React(build, last) == Exit;
      match ParseInput(last)
      case None =>
      case Some(Expression(ts)) =>
      case Some(Command(c)) =>
    }
  }

  /** A printed result, typed back in, is read as that number and printed again unchanged. */
  lemma EchoFixpoint(build: Build, v: i32)
    ensures React(build, Show(v)) == Print(Show(v))
  {
    var ts := [Number(v)];
    ParseInputRender(ts);
    assert Render(ts) == Show(v);
    assert Exec(build, Running([]), ts) == Running([v]) by {
      assert ts[..0] == [];
    }
  }

  /** `3 4 +` prints 7. */
  lemma ReactSum(build: Build)
    ensures React(build, "3 4 +") == Print("7")
  {
    var sum := [Number(3), Number(4), Operator(Add)];
    assert Render(sum) == "3 4 +" by {
      RenderThree(Number(3), Number(4), Operator(Add));
      assert Show(3) == "3" && Show(4) == "4";
    }
    ParseInputRender(sum);
    ExampleSum(build);
    assert Show(7) == "7";
  }

  /** `10 2 -` prints 8: the operands are taken in the order they were written. */
  lemma ReactDifference(build: Build)
    ensures React(build, "10 2 -") == Print("8")
  {
    var diff := [Number(10), Number(2), Operator(Sub)];
    assert Render(diff) == "10 2 -" by {
      RenderThree(Number(10), Number(2), Operator(Sub));
      assert Show(10) == "10" by {
        assert NatDigits(10) == NatDigits(1) + [DigitChar(0)];
      }
      assert Show(2) == "2";
    }
    ParseInputRender(diff);
    OperandOrder(build);
    assert Show(8) == "8";
  }

  /** `1 +` is read but cannot be evaluated; the empty line cannot even be read. */
  lemma ReactInvalid(build: Build)
    ensures React(build, "1 +") == Print(InvalidExpression)
    ensures React(build, "") == Print(InvalidInput)
  {
    var under := [Number(1), Operator(Add)];
    assert Render(under) == "1 +" by {
      RenderTwo(Number(1), Operator(Add));
      assert Show(1) == "1";
    }
    ParseInputRender(under);
    EdgeExamples(build);
  }

  /** `:q` and `:quit` end the loop. */
  lemma ReactQuit(build: Build)
    ensures React(build, ":q") == Exit && React(build, ":quit") == Exit
  {
    QuitLines();
  }
}
