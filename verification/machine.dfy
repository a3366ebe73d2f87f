/**
 * The stack machine of `eval`. A number is pushed; an operator pops `lhs` (the
 * top) and then `rhs` and pushes `rhs OP lhs`; the answer is the final top.
 * Rust's `i32` operators can panic, so a run ends in one of three ways: with a
 * stack, stuck on a missing operand (`eval` returns `None`), or crashed.
 */
module Machine {
  import opened Int32
  import opened Syntax

  /** The compilation profile: it decides whether `+`, `-` and `*` panic or wrap on overflow. */
  datatype Build = Debug | Release

  /** Why an `i32` operation panics. */
  datatype Fault = Overflow | DivideByZero

  datatype Arith = Ok(value: i32) | Panic(fault: Fault)

  /** The mathematical value of `rhs OP lhs`, with `/` rounding toward zero. */
  function Exact(op: Operator, rhs: int, lhs: int): int
    requires op == Div ==> lhs != 0
  {
    match op
    case Add => rhs + lhs
    case Sub => rhs - lhs
    case Mul => rhs * lhs
    case Div => TruncDiv(rhs, lhs)
  }

  /** `rhs OP lhs` on `i32` as Rust evaluates it; `ApplyMeaning` says what it computes. */
  function Apply(build: Build, op: Operator, rhs: i32, lhs: i32): Arith {
    if op == Div then
      if lhs == 0 then Panic(DivideByZero)
      else if rhs as int == MIN && lhs == -1 then Panic(Overflow)
      else
        TruncDivRange(rhs as int, lhs as int);
        Ok(TruncDiv(rhs as int, lhs as int) as i32)
    else
      var x := Exact(op, rhs as int, lhs as int);
      if InRange(x) then Ok(x as i32)
      else if build == Debug then Panic(Overflow)
      else Ok(Wrap(x))
  }

  /**
   * Division by zero always panics; any other result that fits in `i32` is
   * delivered exactly; one that does not fit panics in a debug build and for
   * `/` (where only `MIN / -1` overflows), and wraps around in a release build.
   */
  lemma ApplyMeaning(build: Build, op: Operator, rhs: i32, lhs: i32)
    ensures Apply(build, op, rhs, lhs) == Panic(DivideByZero) <==> op == Div && lhs == 0
    ensures Apply(build, op, rhs, lhs).Panic? ==> build == Debug || op == Div
    ensures op != Div || lhs != 0 ==>
      var x, r := Exact(op, rhs as int, lhs as int), Apply(build, op, rhs, lhs);
      && (InRange(x) ==> r == Ok(x as i32))
      && (!InRange(x) ==> (r == Panic(Overflow) <==> build == Debug || op == Div))
      && (r.Ok? ==> (x - r.value as int) % MODULUS == 0)
  {
    if op == Div && lhs != 0 {
      TruncDivRange(rhs as int, lhs as int);
    }
  }

  /** The state of `eval`: its operand stack (top last), or how it ended early. */
  datatype State = Running(stack: seq<i32>) | Stuck | Crashed(fault: Fault)

  /** What one token does to the machine; `StepMeaning` spells it out. */
  function Step(build: Build, m: State, t: Token): State {
    match m
    case Stuck => m
    case Crashed(_) => m
    case Running(s) =>
      match t
      case Number(n) => Running(s + [n])
      case Operator(op) =>
        if |s| < 2 then Stuck
        else
          match Apply(build, op, s[|s| - 2], s[|s| - 1])
          case Ok(v) => Running(s[..|s| - 2] + [v])
          case Panic(f) => Crashed(f)
  }

  /**
   * A stopped machine ignores the token. A running one gets stuck exactly on an
   * operator with fewer than two values. A number always keeps it running; an
   * operator with its operands crashes it exactly when `Apply` panics, with
   * that fault. While it runs, the height grows by one for a number and shrinks
   * by one for an operator, the values below are untouched, and the new top is
   * the number, or `rhs OP lhs` with `lhs` the former top.
   */
  lemma StepMeaning(build: Build, m: State, t: Token)
    ensures !m.Running? ==> Step(build, m, t) == m
    ensures Step(build, m, t) == Stuck <==> m == Stuck || (m.Running? && t.Operator? && |m.stack| < 2)
    ensures Step(build, m, t).Running? ==>
      var r := Step(build, m, t);
      && m.Running?
      && |r.stack| == |m.stack| + (if t.Number? then 1 else -1)
      && r.stack[..|r.stack| - 1] == m.stack[..|r.stack| - 1]
      && (t.Number? ==> r.stack[|r.stack| - 1] == t.n)
      && (t.Operator? ==>
            Apply(build, t.op, m.stack[|m.stack| - 2], m.stack[|m.stack| - 1]) == Ok(r.stack[|r.stack| - 1]))
    ensures m.Running? && t.Number? ==> Step(build, m, t).Running?
    ensures m.Running? && t.Operator? && |m.stack| >= 2 ==>
      var a := Apply(build, t.op, m.stack[|m.stack| - 2], m.stack[|m.stack| - 1]);
      && (Step(build, m, t).Crashed? <==> a.Panic?)
      && (a.Panic? ==> Step(build, m, t) == Crashed(a.fault))
  {
  }

  /** The machine after the tokens, one `Step` each, in order. */
  function Exec(build: Build, m: State, ts: seq<Token>): State
    decreases |ts|
  {
    if ts == [] then m else Step(build, Exec(build, m, ts[..|ts| - 1]), ts[|ts| - 1])
  }

  /** What running `eval` comes to: `Some(v)`, `None`, or a panic. */
  datatype Outcome = Value(v: i32) | NoValue | Abort(fault: Fault)

  /** `eval` as a function of the tokens: the top of the final stack, if there is one. */
  function Evaluate(build: Build, ts: seq<Token>): Outcome {
    match Exec(build, Running([]), ts)
    case Running(s) => if s == [] then NoValue else Value(s[|s| - 1])
    case Stuck => NoValue
    case Crashed(f) => Abort(f)
  }

  /** A machine that has stopped stays stopped: later tokens are never looked at. */
  lemma {:induction false} ExecHalted(build: Build, m: State, ts: seq<Token>)
    requires !m.Running?
    ensures Exec(build, m, ts) == m
  {
    if ts != [] {
      ExecHalted(build, m, ts[..|ts| - 1]);
    }
  }

  /** Running two token sequences in a row is running their concatenation. */
  lemma {:induction false} ExecAppend(build: Build, m: State, a: seq<Token>, b: seq<Token>)
    ensures Exec(build, m, a + b) == Exec(build, Exec(build, m, a), b)
  {
    if b == [] {
      assert a + b == a;
    } else {
      var b' := b[..|b| - 1];
      assert (a + b)[..|a + b| - 1] == a + b';
      ExecAppend(build, m, a, b');
    }
  }

  lemma ExecSnoc(build: Build, ts: seq<Token>, i: nat)
    requires i < |ts|
    ensures Exec(build, Running([]), ts[..i + 1]) == Step(build, Exec(build, Running([]), ts[..i]), ts[i])
  {
    assert ts[..i + 1][..i] == ts[..i];
  }

  /** Once a prefix has stopped the machine, the whole run ends the same way. */
  lemma HaltedPrefix(build: Build, ts: seq<Token>, k: nat)
    requires k <= |ts|
    requires !Exec(build, Running([]), ts[..k]).Running?
    ensures Exec(build, Running([]), ts) == Exec(build, Running([]), ts[..k])
  {
    assert ts == ts[..k] + ts[k..];
    ExecAppend(build, Running([]), ts[..k], ts[k..]);
    ExecHalted(build, Exec(build, Running([]), ts[..k]), ts[k..]);
  }

  /**
   * `eval`: a loop over the tokens that pushes and pops a local stack and
   * returns `None` as soon as an operand is missing.
   */
  method Eval(build: Build, tokens: seq<Token>) returns (r: Outcome)
    ensures r == Evaluate(build, tokens)
  {
    var stack: seq<i32> := [];
    for i := 0 to |tokens|
      invariant Exec(build, Running([]), tokens[..i]) == Running(stack)
    {
      ExecSnoc(build, tokens, i);
      ghost var before := stack;
      match tokens[i]
      case Number(n) =>
        stack := stack + [n];
      case Operator(op) =>
        if |stack| == 0 {
          HaltedPrefix(build, tokens, i + 1);
          return NoValue;
        }
        var lhs := stack[|stack| - 1];
        stack := stack[..|stack| - 1];
        if |stack| == 0 {
          HaltedPrefix(build, tokens, i + 1);
          return NoValue;
        }
        var rhs := stack[|stack| - 1];
        stack := stack[..|stack| - 1];
        assert stack == before[..|before| - 2];
        var result := Apply(build, op, rhs, lhs);
        if result.Panic? {
          HaltedPrefix(build, tokens, i + 1);
          return Abort(result.fault);
        }
        stack := stack + [result.value];
    }
    assert tokens[..|tokens|] == tokens;
    if stack == [] {
      return NoValue;
    }
    return Value(stack[|stack| - 1]);
  }

  /** The stack height after the tokens if every operator finds its operands: +1 per number, -1 per operator. */
  function Height(ts: seq<Token>): int
    decreases |ts|
  {
    if ts == [] then 0 else Height(ts[..|ts| - 1]) + (if ts[|ts| - 1].Number? then 1 else -1)
  }

  /** Some operator is reached when fewer than two values are on the stack. */
  predicate Underflows(ts: seq<Token>) {
    exists k :: 0 <= k < |ts| && ts[k].Operator? && Height(ts[..k]) < 2
  }

  lemma UnderflowsSnoc(p: seq<Token>, t: Token)
    ensures Underflows(p + [t]) <==> Underflows(p) || (t.Operator? && Height(p) < 2)
    ensures Height(p + [t]) == Height(p) + (if t.Number? then 1 else -1)
  {
    var ts := p + [t];
    assert ts[..|p|] == p;
    assert forall k :: 0 <= k < |p| ==> ts[..k] == p[..k] && ts[k] == p[k];
    if Underflows(ts) {
      var k :| 0 <= k < |ts| && ts[k].Operator? && Height(ts[..k]) < 2;
      if k < |p| {
        assert p[k].Operator? && Height(p[..k]) < 2;
      }
    }
  }

  /**
   * The run from the empty stack, token by token: while it runs, its stack
   * height is `Height` and no operator has underflowed; it gets stuck only
   * after an underflow; without one it never gets stuck and ends with a
   * height of at least zero.
   */
  lemma {:induction false} ExecShape(build: Build, ts: seq<Token>)
    ensures Exec(build, Running([]), ts).Running? ==>
      !Underflows(ts) && |Exec(build, Running([]), ts).stack| == Height(ts)
    ensures Exec(build, Running([]), ts) == Stuck ==> Underflows(ts)
    ensures !Underflows(ts) ==> Height(ts) >= 0 && Exec(build, Running([]), ts) != Stuck
  {
    if ts != [] {
      var p, t := ts[..|ts| - 1], ts[|ts| - 1];
      assert ts == p + [t];
      ExecShape(build, p);
      UnderflowsSnoc(p, t);
      StepMeaning(build, Exec(build, Running([]), p), t);
    }
  }

  /**
   * `eval` answers exactly when no operator underflows and something is left on
   * the stack. Unless an arithmetic panic intervenes, it returns `None` exactly
   * when an operator is reached with fewer than two values or the final stack is empty.
   */
  lemma EvaluateStructure(build: Build, ts: seq<Token>)
    ensures Evaluate(build, ts).Value? ==> !Underflows(ts) && Height(ts) >= 1
    ensures !Underflows(ts) && Height(ts) >= 1 ==> Evaluate(build, ts).Value? || Evaluate(build, ts).Abort?
    ensures !Evaluate(build, ts).Abort? ==>
      (Evaluate(build, ts) == NoValue <==> Underflows(ts) || Height(ts) == 0)
  {
    ExecShape(build, ts);
  }

  /** A panic needs an operator that can panic: any operator in a debug build, only `/` in a release build. */
  lemma {:induction false} CrashCause(build: Build, ts: seq<Token>)
    requires Exec(build, Running([]), ts).Crashed?
    ensures exists k :: 0 <= k < |ts| && ts[k].Operator? && (build == Debug || ts[k].op == Div)
  {
    var p, t := ts[..|ts| - 1], ts[|ts| - 1];
    var m := Exec(build, Running([]), p);
    if m.Crashed? {
      CrashCause(build, p);
      var k :| 0 <= k < |p| && p[k].Operator? && (build == Debug || p[k].op == Div);
      assert ts[k] == p[k];
    } else {
      var s := m.stack;
      ApplyMeaning(build, t.op, s[|s| - 2], s[|s| - 1]);
      assert ts[|ts| - 1] == t;
    }
  }

  /** In a release build without division, `eval` never panics, so `None` means exactly a structural failure. */
  lemma ReleaseWithoutDivision(ts: seq<Token>)
    requires forall k :: 0 <= k < |ts| ==> ts[k] != Operator(Div)
    ensures Evaluate(Release, ts) == NoValue <==> Underflows(ts) || Height(ts) == 0
    ensures Evaluate(Release, ts).Value? <==> !Underflows(ts) && Height(ts) >= 1
    ensures !Evaluate(Release, ts).Abort?
  {
    if Exec(Release, Running([]), ts).Crashed? {
      CrashCause(Release, ts);
    }
    EvaluateStructure(Release, ts);
  }

  /** An underflow ends the evaluation: whatever follows, even a division by zero, is never looked at. */
  lemma StuckPrefix(build: Build, a: seq<Token>, b: seq<Token>)
    requires Exec(build, Running([]), a) == Stuck
    ensures Evaluate(build, a + b) == NoValue
  {
    ExecAppend(build, Running([]), a, b);
    ExecHalted(build, Stuck, b);
  }

  lemma StepFrame(build: Build, base: seq<i32>, s: seq<i32>, t: Token)
    requires !Step(build, Running(s), t).Stuck?
    ensures Step(build, Running(s), t).Running? ==>
      Step(build, Running(base + s), t) == Running(base + Step(build, Running(s), t).stack)
    ensures Step(build, Running(s), t).Crashed? ==>
      Step(build, Running(base + s), t) == Step(build, Running(s), t)
  {
    var bs := base + s;
    if t.Number? {
      assert bs + [t.n] == base + (s + [t.n]);
    } else {
      assert bs[|bs| - 1] == s[|s| - 1] && bs[|bs| - 2] == s[|s| - 2];
      assert bs[..|bs| - 2] == base + s[..|s| - 2];
    }
  }

  /** Values below the operands a run uses are carried along untouched. */
  lemma {:induction false} ExecFrame(build: Build, base: seq<i32>, s: seq<i32>, ts: seq<Token>)
    ensures Exec(build, Running(s), ts).Running? ==>
      Exec(build, Running(base + s), ts) == Running(base + Exec(build, Running(s), ts).stack)
    ensures Exec(build, Running(s), ts).Crashed? ==>
      Exec(build, Running(base + s), ts) == Exec(build, Running(s), ts)
  {
    if ts != [] {
      var p, t := ts[..|ts| - 1], ts[|ts| - 1];
      ExecFrame(build, base, s, p);
      var m := Exec(build, Running(s), p);
      if m.Running? && !Step(build, m, t).Stuck? {
        StepFrame(build, base, m.stack, t);
      }
    }
  }

  /**
   * Only the top of the final stack is the answer: after an expression that
   * leaves values behind, a second complete expression evaluates as it would alone.
   */
  lemma IgnoresBelow(build: Build, a: seq<Token>, b: seq<Token>)
    requires Evaluate(build, a).Value?
    requires Evaluate(build, b).Value?
    ensures Evaluate(build, a + b) == Evaluate(build, b)
  {
    var sa := Exec(build, Running([]), a).stack;
    ExecAppend(build, Running([]), a, b);
    assert sa + [] == sa;
    ExecFrame(build, sa, [], b);
  }

  /** `3 4 +` gives 7. */
  lemma ExampleSum(build: Build)
    ensures Evaluate(build, [Number(3), Number(4), Operator(Add)]) == Value(7)
  {
    ExecThree(build, Number(3), Number(4), Operator(Add));
    assert Step(build, Running([3, 4]), Operator(Add)) == Running([7]);
  }

  /** The operand order is `rhs OP lhs`: `10 2 -` gives 8 and `10 2 /` gives 5. */
  lemma OperandOrder(build: Build)
    ensures Evaluate(build, [Number(10), Number(2), Operator(Sub)]) == Value(8)
    ensures Evaluate(build, [Number(10), Number(2), Operator(Div)]) == Value(5)
  {
    ExecThree(build, Number(10), Number(2), Operator(Sub));
    assert Step(build, Running([10, 2]), Operator(Sub)) == Running([8]);
    ExecThree(build, Number(10), Number(2), Operator(Div));
    assert Step(build, Running([10, 2]), Operator(Div)) == Running([5]);
  }

  /** Division rounds toward zero (`-7 2 /` gives -3) and by zero it panics. */
  lemma DivisionExamples(build: Build)
    ensures Evaluate(build, [Number(-7), Number(2), Operator(Div)]) == Value(-3)
    ensures Evaluate(build, [Number(1), Number(0), Operator(Div)]) == Abort(DivideByZero)
  {
    ExecThree(build, Number(-7), Number(2), Operator(Div));
    assert Step(build, Running([-7, 2]), Operator(Div)) == Running([-3]);
    ExecThree(build, Number(1), Number(0), Operator(Div));
  }

  /**
   * `2147483647 1 +` panics in a debug build and wraps to the minimum in a
   * release build; `-2147483648 -1 /` panics in both.
   */
  lemma OverflowExamples(build: Build)
    ensures Evaluate(Debug, [Number(0x7fff_ffff), Number(1), Operator(Add)]) == Abort(Overflow)
    ensures Evaluate(Release, [Number(0x7fff_ffff), Number(1), Operator(Add)]) == Value(-0x8000_0000)
    ensures Evaluate(build, [Number(-0x8000_0000), Number(-1), Operator(Div)]) == Abort(Overflow)
  {
    ExecThree(Debug, Number(0x7fff_ffff), Number(1), Operator(Add));
    ExecThree(Release, Number(0x7fff_ffff), Number(1), Operator(Add));
    assert Wrap(0x8000_0000) == -0x8000_0000 as i32;
    ExecThree(build, Number(-0x8000_0000), Number(-1), Operator(Div));
  }

  /** `1 2` gives 2, `1 +` and the empty expression give nothing. */
  lemma EdgeExamples(build: Build)
    ensures Evaluate(build, [Number(1), Number(2)]) == Value(2)
    ensures Evaluate(build, [Number(1), Operator(Add)]) == NoValue
    ensures Evaluate(build, []) == NoValue
  {
    ExecTwo(build, Number(1), Number(2));
    ExecTwo(build, Number(1), Operator(Add));
  }

  lemma ExecTwo(build: Build, a: Token, b: Token)
    ensures Exec(build, Running([]), [a, b]) == Step(build, Step(build, Running([]), a), b)
  {
    assert [a, b][..1] == [a] && [a][..0] == [];
    assert Exec(build, Running([]), [a]) == Step(build, Running([]), a);
  }

  lemma ExecThree(build: Build, a: Token, b: Token, c: Token)
    ensures Exec(build, Running([]), [a, b, c]) == Step(build, Step(build, Step(build, Running([]), a), b), c)
  {
    assert [a, b, c][..2] == [a, b];
    ExecTwo(build, a, b);
  }
}
