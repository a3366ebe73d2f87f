/**
 * From an input line to an `Input`: the routing of `parse_input`, the command
 * table of `parse_command` and the tokenizer `parse_expression`, which splits
 * the line as `str::split_ascii_whitespace` does and classifies every field.
 */
module Parse {
  import opened Int32
  import opened Syntax
  import opened Numeral

  /** `u8::is_ascii_whitespace`: space, tab, line feed, form feed, carriage return. */
  predicate IsAsciiWhitespace(c: char) {
    c == ' ' || c == '\t' || c == '\n' || c == '\U{000C}' || c == '\r'
  }

  /** What `split_ascii_whitespace` can yield: a non-empty run without ASCII whitespace. */
  predicate IsField(w: string) {
    |w| >= 1 && forall i :: 0 <= i < |w| ==> !IsAsciiWhitespace(w[i])
  }

  /** The longest prefix of `s` that holds no ASCII whitespace. */
  function Word(s: string): (w: string)
    ensures |w| <= |s| && w == s[..|w|]
    ensures forall i :: 0 <= i < |w| ==> !IsAsciiWhitespace(w[i])
    ensures |w| < |s| ==> IsAsciiWhitespace(s[|w|])
  {
    if s == [] || IsAsciiWhitespace(s[0]) then [] else [s[0]] + Word(s[1..])
  }

  /** `s.split_ascii_whitespace()`: the fields of `s`, in order, with empty ones dropped. */
  function Fields(s: string): (fs: seq<string>)
    ensures forall i :: 0 <= i < |fs| ==> IsField(fs[i])
    ensures (forall i :: 0 <= i < |s| ==> IsAsciiWhitespace(s[i])) ==> fs == []
    decreases |s|
  {
    if s == [] then []
    else if IsAsciiWhitespace(s[0]) then
      assert forall i :: 0 <= i < |s| - 1 ==> s[1..][i] == s[i + 1];
      Fields(s[1..])
    else
      var w := Word(s);
      [w] + Fields(s[|w|..])
  }

  /** The fields written out with one space between neighbours. */
  function Join(fs: seq<string>): string {
    if fs == [] then ""
    else if |fs| == 1 then fs[0]
    else fs[0] + " " + Join(fs[1..])
  }

  lemma {:induction false} WordOfField(w: string, rest: string)
    requires forall i :: 0 <= i < |w| ==> !IsAsciiWhitespace(w[i])
    requires rest == [] || IsAsciiWhitespace(rest[0])
    ensures Word(w + rest) == w
  {
    if w != [] {
      assert (w + rest)[1..] == w[1..] + rest;
      WordOfField(w[1..], rest);
    } else {
      assert w + rest == rest;
    }
  }

  /** Whitespace before the first field is skipped. */
  lemma {:induction false} FieldsSkip(ws: string, s: string)
    requires forall i :: 0 <= i < |ws| ==> IsAsciiWhitespace(ws[i])
    ensures Fields(ws + s) == Fields(s)
  {
    if ws == [] {
      assert ws + s == s;
    } else {
      assert (ws + s)[1..] == ws[1..] + s;
      FieldsSkip(ws[1..], s);
    }
  }

  /** A field followed by the end of the line or by whitespace is the first field, and splitting goes on after it. */
  lemma FieldsCons(w: string, rest: string)
    requires IsField(w)
    requires rest == [] || IsAsciiWhitespace(rest[0])
    ensures Fields(w + rest) == [w] + Fields(rest)
  {
    WordOfField(w, rest);
    assert (w + rest)[0] == w[0];
    assert (w + rest)[|w|..] == rest;
  }

  /** Splitting undoes joining: fields joined by single spaces split back into the same fields. */
  lemma {:induction false} FieldsJoin(fs: seq<string>)
    requires forall i :: 0 <= i < |fs| ==> IsField(fs[i])
    ensures Fields(Join(fs)) == fs
  {
    if |fs| == 1 {
      FieldsCons(fs[0], []);
      assert fs[0] + [] == fs[0];
    } else if |fs| > 1 {
      var w, tail := fs[0], Join(fs[1..]);
      assert Join(fs) == w + (" " + tail);
      FieldsCons(w, " " + tail);
      FieldsSkip(" ", tail);
      FieldsJoin(fs[1..]);
      assert fs == [w] + fs[1..];
    }
  }

  /** One field of an expression: a number if `parse::<i32>` accepts it, else an operator symbol. */
  function ClassifyField(t: string): Option<Token> {
    match ParseI32(t)
    case Some(n) => Some(Number(n))
    case None =>
      if t == "+" then Some(Operator(Add))
      else if t == "-" then Some(Operator(Sub))
      else if t == "*" then Some(Operator(Mul))
      else if t == "/" then Some(Operator(Div))
      else None
  }

  /** The fields classified in order; one field that is not a token spoils the whole line. */
  function TokenizeFields(fs: seq<string>): Option<seq<Token>> {
    if fs == [] then Some([])
    else
      match ClassifyField(fs[0])
      case None => None
      case Some(t) =>
        match TokenizeFields(fs[1..])
        case None => None
        case Some(ts) => Some([t] + ts)
  }

  /** `parse_expression` as a function of the line. */
  function Tokenize(s: string): Option<seq<Token>> {
    TokenizeFields(Fields(s))
  }

  /**
   * Tokenizing succeeds exactly when every field is a number or an operator,
   * and then yields one token per field, in the order of the fields.
   */
  lemma {:induction false} TokenizeFieldwise(fs: seq<string>)
    ensures TokenizeFields(fs).Some? <==> forall i :: 0 <= i < |fs| ==> ClassifyField(fs[i]).Some?
    ensures TokenizeFields(fs).Some? ==>
      |TokenizeFields(fs).value| == |fs| &&
      forall i :: 0 <= i < |fs| ==> ClassifyField(fs[i]) == Some(TokenizeFields(fs).value[i])
  {
    if fs != [] {
      TokenizeFieldwise(fs[1..]);
      assert forall i :: 1 <= i < |fs| ==> fs[i] == fs[1..][i - 1];
    }
  }

  /** `parse_expression`: the loop over the fields, returning `None` at the first bad one. */
  method ParseExpression(input: string) returns (r: Option<seq<Token>>)
    ensures r == Tokenize(input)
  {
    var fields := Fields(input);
    var tokens: seq<Token> := [];
    for i := 0 to |fields|
      invariant |tokens| == i
      invariant forall j :: 0 <= j < i ==> ClassifyField(fields[j]) == Some(tokens[j])
    {
      var t := fields[i];
      var num := ParseI32(t);
      if num.Some? {
        tokens := tokens + [Number(num.value)];
      } else if t == "+" {
        tokens := tokens + [Operator(Add)];
      } else if t == "-" {
        tokens := tokens + [Operator(Sub)];
      } else if t == "*" {
        tokens := tokens + [Operator(Mul)];
      } else if t == "/" {
        tokens := tokens + [Operator(Div)];
      } else {
        TokenizeFieldwise(fields);
        return None;
      }
    }
    TokenizeFieldwise(fields);
    var expected := TokenizeFields(fields).value;
    assert forall j :: 0 <= j < |fields| ==> expected[j] == tokens[j];
    assert expected == tokens;
    return Some(tokens);
  }

  /**
   * Numbers are tried before operators: a lone sign is an operator, a signed
   * numeral a number, and a field is an operator only when it is that operator's symbol.
   */
  lemma ClassifyPrecedence(t: string, op: Operator)
    ensures ClassifyField(Symbol(op)) == Some(Operator(op))
    ensures ClassifyField(t) == Some(Operator(op)) ==> t == Symbol(op)
    ensures ClassifyField("+5") == Some(Number(5)) && ClassifyField("-5") == Some(Number(-5))
  {
    SignedNumerals();
    if ParseI32(Symbol(op)).Some? {
      ParseI32Shape(Symbol(op));
    }
  }

  /** A printed number is read back as that number. */
  lemma ClassifyShow(n: i32)
    ensures ClassifyField(Show(n)) == Some(Number(n))
  {
    ParseShow(n);
  }

  /** The field that writes a token. */
  function TokenText(t: Token): string {
    match t
    case Number(n) => Show(n)
    case Operator(op) => Symbol(op)
  }

  /** A token sequence written out as an input line. */
  function Render(ts: seq<Token>): string {
    Join(seq(|ts|, i requires 0 <= i < |ts| => TokenText(ts[i])))
  }

  /** Rendering puts one space between the first token's field and the rest. */
  lemma RenderCons(t: Token, ts: seq<Token>)
    requires ts != []
    ensures Render([t] + ts) == TokenText(t) + " " + Render(ts)
  {
    var fs := seq(|ts|, i requires 0 <= i < |ts| => TokenText(ts[i]));
    var all := seq(|ts| + 1, i requires 0 <= i < |ts| + 1 => TokenText(([t] + ts)[i]));
    assert all == [TokenText(t)] + fs;
    assert all[1..] == fs;
  }

  lemma RenderOne(t: Token)
    ensures Render([t]) == TokenText(t)
  {
    assert seq(1, i requires 0 <= i < 1 => TokenText([t][i])) == [TokenText(t)];
  }

  lemma RenderTwo(a: Token, b: Token)
    ensures Render([a, b]) == TokenText(a) + " " + TokenText(b)
  {
    assert [a, b] == [a] + [b];
    RenderCons(a, [b]);
    RenderOne(b);
  }

  lemma RenderThree(a: Token, b: Token, c: Token)
    ensures Render([a, b, c]) == TokenText(a) + " " + (TokenText(b) + " " + TokenText(c))
  {
    assert [a, b, c] == [a] + [b, c];
    RenderCons(a, [b, c]);
    RenderTwo(b, c);
  }

  /** Every token sequence is what the tokenizer makes of its own rendering. */
  lemma TokenizeRender(ts: seq<Token>)
    ensures Tokenize(Render(ts)) == Some(ts)
  {
    var fs := seq(|ts|, i requires 0 <= i < |ts| => TokenText(ts[i]));
    forall i | 0 <= i < |fs|
      ensures IsField(fs[i]) && ClassifyField(fs[i]) == Some(ts[i])
    {
      match ts[i]
      case Number(n) =>
        ClassifyShow(n);
      case Operator(op) =>
        ClassifyPrecedence(fs[i], op);
    }
    FieldsJoin(fs);
    TokenizeFieldwise(fs);
    var got := TokenizeFields(fs).value;
    assert forall i :: 0 <= i < |ts| ==> got[i] == ts[i];
    assert got == ts;
  }

  /** `parse_command`: the table of commands, matched exactly. */
  function ParseCommand(s: string): Option<Command> {
    if s == "q" || s == "quit" then Some(Quit) else None
  }

  /** `parse_input`: empty lines fail; `:` starts a command; anything else is an expression. */
  function ParseInput(line: string): Option<Input> {
    if line == [] then None
    else if line[0] == ':' then
      match ParseCommand(line[1..])
      case Some(c) => Some(Command(c))
      case None => None
    else
      match Tokenize(line)
      case Some(ts) => Some(Expression(ts))
      case None => None
  }

  /** Only `q` and `quit` name a command; `trace` and the empty name do not. */
  lemma CommandTable(s: string)
    ensures ParseCommand(s) == Some(Quit) <==> s == "q" || s == "quit"
    ensures ParseCommand(s) != Some(Quit) ==> ParseCommand(s) == None
    ensures ParseCommand("trace") == None && ParseCommand("") == None
  {
  }

  /**
   * How a line is routed: a command only after a leading `:` (with the rest
   * looked up in the command table), an expression only without one, and the
   * result is the tokenizer's result on the whole line.
   */
  lemma InputRouting(line: string)
    ensures line == [] ==> ParseInput(line) == None
    ensures forall c :: ParseInput(line) == Some(Command(c)) <==>
      |line| >= 1 && line[0] == ':' && ParseCommand(line[1..]) == Some(c)
    ensures forall ts :: ParseInput(line) == Some(Expression(ts)) <==>
      |line| >= 1 && line[0] != ':' && Tokenize(line) == Some(ts)
  {
  }

  /** `:q` and `:quit` quit; a bare `q` is an unreadable expression, and `: q` an unknown command. */
  lemma QuitLines()
    ensures ParseInput(":q") == Some(Command(Quit)) && ParseInput(":quit") == Some(Command(Quit))
    ensures ParseInput("q") == None && ParseInput(": q") == None && ParseInput(":") == None
  {
    assert ":q"[1..] == "q" && ":quit"[1..] == "quit" && ": q"[1..] == " q";
    assert Fields("q") == ["q"] by {
      WordOfField("q", []);
      assert "q" + [] == "q";
    }
  }

  /** A non-empty rendered expression is parsed back as that expression. */
  lemma ParseInputRender(ts: seq<Token>)
    requires ts != []
    ensures ParseInput(Render(ts)) == Some(Expression(ts))
  {
    TokenizeRender(ts);
    RenderStart(ts);
  }

  /** A rendered expression starts with its first token's text, which is never `:`. */
  lemma RenderStart(ts: seq<Token>)
    requires ts != []
    ensures |Render(ts)| >= 1 && Render(ts)[0] != ':'
  {
    if |ts| == 1 {
      RenderOne(ts[0]);
    } else {
      assert ts == [ts[0]] + ts[1..];
      RenderCons(ts[0], ts[1..]);
    }
    match ts[0]
    case Number(n) =>
    case Operator(op) =>
  }
}
