# calci in Dafny

calci is an interactive calculator for postfix (reverse Polish) arithmetic on
Rust `i32` values. Each line it reads is one of three things:

- a command: `:` followed by `q` or `quit`, which ends the loop;
- an expression: fields separated by ASCII whitespace, each field a number or one of `+ - * /`;
- anything else, which is rejected with `invailed input`.

An expression runs on a stack machine. A number is pushed. An operator pops
`lhs` (the top) and then `rhs`, and pushes `rhs OP lhs`. The answer is the top
of the final stack. If an operator finds fewer than two values, or the stack
ends empty, the program prints `invailed expression`. The diagnostics are
spelled as the program prints them.

This project models the whole of `src/main.rs` apart from its terminal I/O:

- `Int32`: the `i32` type, two's-complement wrap-around, and Rust's division that truncates toward zero.
- `Numeral`: `str::parse::<i32>`, which decides whether a field is a number, and the decimal formatting of a printed result.
- `Syntax`: the enums `Operator`, `Token`, `Command` and `Input`, and Rust's `Option`.
- `Parse`:
  - `parse_input`, `parse_command` and `parse_expression`;
  - `str::split_ascii_whitespace`, which the tokenizer relies on;
  - `ParseExpression`, a method with the source's loop, proved equal to the function `Tokenize`.
- `Machine`:
  - `eval` as a specification function `Evaluate`, with `Step` and `Exec`;
  - `Eval`, a method with the source's loop and its early returns, proved equal to `Evaluate`.
- `Repl`:
  - the loop of `main`, taking input lines as a sequence and collecting the printed lines;
  - `SessionLoop`, a method with the source's `continue`s and `break`, proved equal to the function `Transcript`.

Rust's `i32` arithmetic can panic, so the model makes the build profile
explicit with a `Build` parameter:

- In a debug build, `+`, `-` and `*` panic on overflow.
- In a release build, they wrap around.
- Division by zero and `MIN / -1` panic in both builds.

A panic ends the process. The model represents it as the outcome `Abort`,
which ends the session with status `Panicked`.

A few facts about the program are worth stating outright:

- It computes on `i32`, not on floating-point numbers.
- Its only command is quit.
- It keeps no history of earlier evaluations.
- It prints `invailed`, not `invalid`.
- It does not treat end of input as quit.

## Model

| member | source | states |
|---|---|---|
| Int32.Wrap | src/main.rs:58-60 | A release-build result agrees with the exact value modulo 2^32, and equals it whenever the exact value fits in `i32`. |
| Int32.TruncDivAbs | src/main.rs:61 | The magnitude of the quotient is the quotient of the magnitudes. |
| Int32.TruncDivSpec | src/main.rs:61 | The remainder of `/` is smaller than the divisor in magnitude and is zero or has the dividend's sign. The quotient is no larger in magnitude than the dividend. |
| Int32.TruncDivRange | src/main.rs:61 | For `i32` operands and a non-zero divisor, the quotient fits in `i32` exactly when the division is not `MIN / -1`. |
| Int32.TruncDivIsNotEuclidean | src/main.rs:61 | Rust's `/` rounds toward zero and differs from Euclidean division when the dividend is negative and the division is inexact: `-7 / 2` is -3, not -4, while `7 / -2` is -3 under both. |
| Numeral.Show | src/main.rs:111 | A printed result is in canonical form: an optional `-`, then decimal digits. Only zero starts with `0`, and a `-` is followed by a non-zero digit and appears only for negative values. |
| Numeral.ParseShow | src/main.rs:111 | `parse::<i32>` reads every printed `i32` back as the same value. |
| Numeral.ParseI32Shape | src/main.rs:32 | Whatever `parse::<i32>` accepts is an optional sign followed by at least one digit. |
| Numeral.ParseI32Digits | src/main.rs:32 | Conversely, an optional sign followed by one or more digits (leading zeros allowed) is accepted exactly when its signed value fits in `i32`, and then denotes that value. |
| Numeral.SignedNumerals | src/main.rs:32 | A lone `+` or `-` is not a number, while `+5` and `-5` are. `2147483647` and `-2147483648` parse, and `2147483648` does not. |
| Parse.Word | src/main.rs:31 | A field of a line is the longest whitespace-free run starting at its position. |
| Parse.Fields | src/main.rs:31 | `split_ascii_whitespace` yields only non-empty fields that contain no ASCII whitespace, and a line that is empty or all whitespace has no fields. |
| Parse.FieldsSkip | src/main.rs:31 | Whitespace before the first field is skipped. |
| Parse.FieldsCons | src/main.rs:31 | A field that ends at the end of the line or at whitespace is the first field, and splitting goes on after it. Together with `FieldsSkip` and the blank-line clause of `Fields`, this fixes the fields of every line. |
| Parse.FieldsJoin | src/main.rs:31 | Splitting fields that were joined with single spaces gives back exactly those fields. |
| Parse.TokenizeFieldwise | src/main.rs:29-45 | Tokenizing succeeds exactly when every field is a number or an operator symbol. It then yields one token per field, in field order, each the classification of its field. |
| Parse.ParseExpression | src/main.rs:29-45 | The tokenizing loop, which returns `None` at the first bad field, computes `Tokenize` of the line. |
| Parse.ClassifyPrecedence | src/main.rs:32-41 | Each operator symbol classifies as its operator, and a field is an operator only if it is that operator's symbol. Numbers are tried first, so `+5` and `-5` are numbers. |
| Parse.ClassifyShow | src/main.rs:32-33 | A printed number is read as that number. |
| Parse.TokenizeRender | src/main.rs:29-45 | Every token sequence, written with single spaces, tokenizes back to itself. |
| Parse.CommandTable | src/main.rs:22-27 | A command name denotes quit exactly when it is `q` or `quit`; every other name, including `trace` and the empty one, is rejected. |
| Parse.InputRouting | src/main.rs:10-20 | The empty line is rejected. A line is a command exactly when it starts with `:` and the rest is in the command table. It is an expression exactly when it does not start with `:` and the whole line tokenizes, with those tokens. |
| Parse.QuitLines | src/main.rs:10-27 | `:q` and `:quit` quit. A bare `q`, `: q` and `:` are rejected. |
| Parse.ParseInputRender | src/main.rs:10-20 | A non-empty rendered expression is parsed back as that expression. |
| Machine.ApplyMeaning | src/main.rs:57-62 | An operation panics with division by zero exactly on `/` by 0, and panics at all only in a debug build or on `/`. An in-range exact result is delivered. An out-of-range one panics exactly in a debug build or for `/`, and otherwise wraps modulo 2^32. |
| Machine.StepMeaning | src/main.rs:50-64 | A stopped machine ignores tokens. A running one gets stuck exactly on an operator with fewer than two values. A number keeps it running. An operator with its operands crashes it exactly when `Apply` panics, with that fault. While it runs, the height changes by +1 or -1, the values below are untouched, and the new top is the number or `rhs OP lhs` with `lhs` the old top. |
| Machine.Eval | src/main.rs:47-68 | The loop of `eval` computes `Evaluate`, including both `?` exits on a missing operand and a panic in the arithmetic. |
| Machine.ExecShape | src/main.rs:49-66 | While the machine runs, its height is the count of numbers minus operators and no operator has underflowed. It gets stuck only after an underflow, and without one it never does. |
| Machine.EvaluateStructure | src/main.rs:47-68 | `eval` yields a value only if no operator underflows and the final height is at least one. Barring a panic, it yields `None` exactly on an underflow or an empty final stack. |
| Machine.CrashCause | src/main.rs:57-62 | A panic requires an operator that can panic: any operator in a debug build, `/` in a release build. |
| Machine.ReleaseWithoutDivision | src/main.rs:47-68 | In a release build, an expression without `/` never panics. It yields a value exactly when it is structurally well formed. |
| Machine.StuckPrefix | src/main.rs:55-56 | After an underflow, `eval` returns `None` whatever tokens follow, even a division by zero. |
| Machine.ExecFrame | src/main.rs:49-66 | Values below those a run works on are carried along unchanged. |
| Machine.IgnoresBelow | src/main.rs:67 | Only the final top is the answer: a complete expression (one that gives a value on its own) placed after another complete expression evaluates as it would alone. |
| Machine.ExampleSum | src/main.rs:58 | `3 4 +` gives 7. |
| Machine.OperandOrder | src/main.rs:55-61 | `10 2 -` gives 8 and `10 2 /` gives 5: the earlier value is the left operand. |
| Machine.DivisionExamples | src/main.rs:61 | `-7 2 /` gives -3, and `1 0 /` panics. |
| Machine.OverflowExamples | src/main.rs:58-61 | `2147483647 1 +` panics in a debug build and wraps to `-2147483648` in a release build. `-2147483648 -1 /` panics in both. |
| Machine.EdgeExamples | src/main.rs:47-68 | `1 2` gives 2, while `1 +` and the empty expression give `None`. |
| Repl.SessionLoop | src/main.rs:98-119 | The loop of `main`, fed a sequence of lines, produces the printed lines, the final status and the number of lines read given by `Transcript`. |
| Repl.PlayShape | src/main.rs:98-119 | Every iteration before the loop stops prints exactly one line, in order. The loop stops only at the last reaction it took, which quit or crashed. |
| Repl.TranscriptShape | src/main.rs:98-119 | Each line read before the session stops prints exactly its own reaction, in order. The session stops only on the last line read, which was a quit or a panic, and a running session has read every line. |
| Repl.TranscriptHalted | src/main.rs:113-116 | Once the session has stopped, further lines change nothing: nothing is read after a quit. |
| Repl.QuitEndsSession | src/main.rs:113-116 | A quit line stops the session no later than itself. A session that terminates does so on its first quit line. |
| Repl.EchoFixpoint | src/main.rs:101-111 | Typing a printed result back in prints it again unchanged. |
| Repl.ReactSum | src/main.rs:105-111 | The line `3 4 +` prints `7`. |
| Repl.ReactDifference | src/main.rs:105-111 | The line `10 2 -` prints `8`. |
| Repl.ReactInvalid | src/main.rs:101-109 | `1 +` prints `invailed expression`, and the empty line prints `invailed input`. |
| Repl.ReactQuit | src/main.rs:113-116 | `:q` and `:quit` end the loop. |

## Left out

- `read_input` and `prompt` (src/main.rs:3-8, 70-74) are not modelled. They do terminal I/O: the prompt, the flush and the read.
  - The session instead takes the lines `read_input` would return, as a finite sequence.
  - A line with leading or trailing whitespace is classified as `parse_input` classifies it, which is not what the program does with it. For example, the model answers ` :q` with `invailed input`, while the program trims the line first and quits.
- The `unwrap` on an I/O error is not modelled.
- End of input is not modelled. After the last line, `read_line` returns an empty string forever, and the program would print `invailed input` without end. `SessionLoop` instead stops with status `Active` when its lines run out.
- `println!` is represented by the printed text alone, without the line terminator.
- Panics are not modelled beyond the fault that caused them: the panic message and the process exit status are left out.
- `Numeral.ParseI32`: Rust accumulates the digits with checked arithmetic, and the model instead applies one range check to the complete value. The two agree because the partial values only grow in magnitude; that equivalence is argued here, not proved.
- Which build profile the program was compiled with is a parameter of the model, not something it decides.
