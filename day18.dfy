/**
 * Day 18 (operation order): a tokenizer, a precedence-climbing parser whose operator precedences
 * are a parameter, and the evaluator of the parsed expression trees.
 */
module Day18 {
  import opened Wrappers
  import opened Text

  datatype BinaryOp = Multiply | Add

  datatype Expr = Literal(value: int) | BinaryOp(op: BinaryOp, left: Expr, right: Expr)

  /** `Expr::eval` (integers are unbounded here). */
  function Eval(e: Expr): int {
    match e
    case Literal(v) => v
    case BinaryOp(op, left, right) =>
      if op == Multiply then Eval(left) * Eval(right) else Eval(left) + Eval(right)
  }

  datatype Token = LParan | RParan | Number(n: int) | Plus | Times

  /** `Token::to_op`: the operator a token stands for, if any. */
  function ToOp(t: Token): (r: Option<BinaryOp>)
    ensures r == Some(Add) <==> t == Plus
    ensures r == Some(Multiply) <==> t == Times
    ensures r.None? <==> t.LParan? || t.RParan? || t.Number?
  {
    match t
    case Plus => Some(Add)
    case Times => Some(Multiply)
    case _ => None
  }

  /** The token that spells an operator. */
  function OpToken(op: BinaryOp): Token {
    if op == Add then Plus else Times
  }

  /** `to_op` reads back the operator of its token. */
  lemma ToOpOfToken(op: BinaryOp)
    ensures ToOp(OpToken(op)) == Some(op)
  {
  }

  // ---- The tokenizer ----

  /** The end of the run of ASCII digits that starts at `i`. */
  function DigitEnd(s: string, i: nat): (r: nat)
    requires i <= |s|
    ensures i <= r <= |s| && (r == |s| || !IsDigit(s[r]))
    ensures forall k :: i <= k < r ==> IsDigit(s[k])
    decreases |s| - i
  {
    if i < |s| && IsDigit(s[i]) then DigitEnd(s, i + 1) else i
  }

  /** What one call of `Tokenizer::next` does: no token, a token and the input left, or a panic. */
  datatype Step = Done | Yield(token: Token, rest: string) | Panic

  /**
   * `Tokenizer::next` on `input`: skip whitespace; at the end there is no token; otherwise one of
   * `(`, `)`, `+`, `*`, or the whole run of digits as a number, and the input after it. Any other
   * character is `unreachable!`, and a number above `isize::MAX` fails its `unwrap`.
   */
  function NextToken(input: string): Step {
    var i := SpaceEnd(input, 0);
    if i == |input| then Done
    else
      var c := input[i];
      if c == '(' then Yield(LParan, input[i + 1..])
      else if c == ')' then Yield(RParan, input[i + 1..])
      else if c == '+' then Yield(Plus, input[i + 1..])
      else if c == '*' then Yield(Times, input[i + 1..])
      else if IsDigit(c) then
        var j := DigitEnd(input, i + 1);
        assert AllDigits(input[i..j]);
        var n := Value(input[i..j]);
        if n > IsizeMax then Panic else Yield(Number(n), input[j..])
      else Panic
  }

  /** There is no token exactly when the input is empty or blank. */
  lemma DoneMeansBlank(input: string)
    ensures NextToken(input).Done? <==> forall k :: 0 <= k < |input| ==> IsWhitespace(input[k])
  {
  }

  /** Every token strictly shortens the input, leaving a suffix of it. */
  lemma YieldShortens(input: string)
    requires NextToken(input).Yield?
    ensures |NextToken(input).rest| < |input|
    ensures NextToken(input).rest == input[|input| - |NextToken(input).rest|..]
  {
  }

  /**
   * A number token holds the whole run of digits after the whitespace: the run ends at the end of
   * the input or at a character that is not a digit, and the input resumes there.
   */
  lemma NumberIsDigitRun(input: string)
    requires NextToken(input).Yield? && NextToken(input).token.Number?
    ensures var i, j := SpaceEnd(input, 0), |input| - |NextToken(input).rest|;
      i < j && AllDigits(input[i..j]) && (j == |input| || !IsDigit(input[j])) &&
      NextToken(input).token.n == Value(input[i..j]) && NextToken(input).rest == input[j..]
  {
  }

  /** `Tokenizer`: the input not yet turned into tokens. */
  class Tokenizer {
    var input: string

    constructor(line: string)
      ensures input == line
    {
      input := line;
    }

    /** `Tokenizer::next`: the next token, advancing `input` past it; `input` stays when there is none. */
    method Next() returns (r: Step)
      modifies this
      ensures r == NextToken(old(input))
      ensures r.Yield? ==> input == r.rest
      ensures r.Done? ==> input == old(input)
    {
      var i := 0;
      while i < |input| && IsWhitespace(input[i])
        invariant i <= |input| && SpaceEnd(input, i) == SpaceEnd(input, 0)
        decreases |input| - i
      {
        i := i + 1;
      }
      if i == |input| {
        return Done;
      }
      var c := input[i];
      var token;
      var next := i + 1;
      if c == '(' {
        token := LParan;
      } else if c == ')' {
        token := RParan;
      } else if c == '+' {
        token := Plus;
      } else if c == '*' {
        token := Times;
      } else if IsDigit(c) {
        while next < |input| && IsDigit(input[next])
          invariant i < next <= |input| && DigitEnd(input, next) == DigitEnd(input, i + 1)
          decreases |input| - next
        {
          next := next + 1;
        }
        assert AllDigits(input[i..next]);
        var n := Value(input[i..next]);
        if n > IsizeMax {
          return Panic;
        }
        token := Number(n);
      } else {
        return Panic;
      }
      input := input[next..];
      return Yield(token, input);
    }
  }

  // ---- The token stream ----

  /**
   * The tokens `Tokenizer` produces for a line, in order, and whether asking for one more panics
   * instead of ending the stream. The tokenizer is deterministic, so a parser reading the stream
   * lazily sees a prefix of these tokens, and panics only if it asks past them when `panics` holds.
   */
  datatype Stream = Stream(tokens: seq<Token>, panics: bool)

  function Tokenize(input: string): Stream
    decreases |input|
  {
    match NextToken(input)
    case Done => Stream([], false)
    case Panic => Stream([], true)
    case Yield(t, rest) =>
      YieldShortens(input);
      var s := Tokenize(rest);
      Stream([t] + s.tokens, s.panics)
  }

  /** Calling `Next` until there is no token yields `Tokenize(line)`. */
  method TokenizeLine(line: string) returns (s: Stream)
    ensures s == Tokenize(line)
  {
    var tokenizer := new Tokenizer(line);
    var tokens := [];
    while true
      invariant Tokenize(line) == Stream(tokens + Tokenize(tokenizer.input).tokens, Tokenize(tokenizer.input).panics)
      decreases |tokenizer.input|
    {
      ghost var before := tokenizer.input;
      var r := tokenizer.Next();
      match r
      case Done =>
        return Stream(tokens, false);
      case Panic =>
        return Stream(tokens, true);
      case Yield(t, rest) =>
        TokenizeYield(before);
        tokens := tokens + [t];
    }
  }

  /** A token yielded at the front of the input is the first of the stream. */
  lemma TokenizeYield(input: string)
    requires NextToken(input).Yield?
    ensures |NextToken(input).rest| < |input|
    ensures Tokenize(input) ==
      Stream([NextToken(input).token] + Tokenize(NextToken(input).rest).tokens, Tokenize(NextToken(input).rest).panics)
  {
    YieldShortens(input);
  }

  /** What `peek` finds at a position: a token, the end of the line, or the tokenizer's panic. */
  datatype Look = Tok(t: Token) | End | Broken

  function At(s: Stream, pos: nat): Look {
    if pos < |s.tokens| then Tok(s.tokens[pos]) else if s.panics then Broken else End
  }

  // ---- The parser ----

  /** What `parse_expr` or `parse_atom` leaves: an expression and the position after it, or a panic. */
  datatype Parsed = Parsed(expr: Expr, pos: nat) | Failed

  /**
   * `parse_atom`: a number, or `(`, an expression at precedence 0 and the `)` that must follow.
   * The end of the line or any other token panics.
   */
  function ParseAtomSpec(s: Stream, sel: BinaryOp -> nat, pos: nat): (r: Parsed)
    requires pos <= |s.tokens|
    ensures r.Parsed? ==> pos < r.pos <= |s.tokens|
    ensures r.Parsed? && s.tokens[pos] == LParan ==> s.tokens[r.pos - 1] == RParan
    ensures r.Parsed? ==> s.tokens[pos].LParan? || s.tokens[pos].Number?
    decreases |s.tokens| - pos, 0
  {
    match At(s, pos)
    case Tok(LParan) =>
      var inner := ParseExprSpec(s, sel, pos + 1, 0);
      if inner.Failed? then Failed
      else if At(s, inner.pos) == Tok(RParan) then Parsed(inner.expr, inner.pos + 1)
      else Failed
    case Tok(Number(n)) => Parsed(Literal(n), pos + 1)
    case _ => Failed
  }

  /** `parse_expr`: an atom, then the operators of at least precedence `prec`, as `ParseLoop` takes them. */
  function ParseExprSpec(s: Stream, sel: BinaryOp -> nat, pos: nat, prec: nat): (r: Parsed)
    requires pos <= |s.tokens|
    ensures r.Parsed? ==> pos < r.pos <= |s.tokens|
    decreases |s.tokens| - pos, 2
  {
    var a := ParseAtomSpec(s, sel, pos);
    if a.Failed? then Failed else ParseLoop(s, sel, prec, a.expr, a.pos)
  }

  /**
   * The `while let` of `parse_expr`: while the next token is an operator of precedence at least
   * `prec`, take it and the expression to its right at one more than its precedence, and make
   * them the right operand of `expr`.
   */
  function ParseLoop(s: Stream, sel: BinaryOp -> nat, prec: nat, expr: Expr, pos: nat): (r: Parsed)
    requires pos <= |s.tokens|
    ensures r.Parsed? ==> pos <= r.pos <= |s.tokens|
    decreases |s.tokens| - pos, 1
  {
    match At(s, pos)
    case Broken => Failed
    case End => Parsed(expr, pos)
    case Tok(t) =>
      match ToOp(t)
      case None => Parsed(expr, pos)
      case Some(op) =>
        if sel(op) < prec then Parsed(expr, pos)
        else
          var right := ParseExprSpec(s, sel, pos + 1, sel(op) + 1);
          if right.Failed? then Failed else ParseLoop(s, sel, prec, BinaryOp(op, expr, right.expr), right.pos)
  }

  /** `parse_atom` on the token stream at `pos`. */
  method ParseAtom(s: Stream, sel: BinaryOp -> nat, pos: nat) returns (r: Parsed)
    requires pos <= |s.tokens|
    ensures r == ParseAtomSpec(s, sel, pos)
    decreases |s.tokens| - pos, 0
  {
    match At(s, pos) {
      case Tok(LParan) =>
        var inner := ParseExpr(s, sel, pos + 1, 0);
        if inner.Failed? {
          return Failed;
        }
        if At(s, inner.pos) != Tok(RParan) {
          return Failed;
        }
        return Parsed(inner.expr, inner.pos + 1);
      case Tok(Number(n)) =>
        return Parsed(Literal(n), pos + 1);
      case _ =>
        return Failed;
    }
  }

  /** `parse_expr`: the loop builds the left-nested tree in `expr` while advancing `p`. */
  method ParseExpr(s: Stream, sel: BinaryOp -> nat, pos: nat, prec: nat) returns (r: Parsed)
    requires pos <= |s.tokens|
    ensures r == ParseExprSpec(s, sel, pos, prec)
    decreases |s.tokens| - pos, 2
  {
    var a := ParseAtom(s, sel, pos);
    if a.Failed? {
      return Failed;
    }
    var expr, p := a.expr, a.pos;
    while true
      invariant pos < p <= |s.tokens|
      invariant ParseLoop(s, sel, prec, expr, p) == ParseExprSpec(s, sel, pos, prec)
      decreases |s.tokens| - p
    {
      var look := At(s, p);
      if look.Broken? {
        return Failed;
      }
      if look.End? || ToOp(look.t).None? {
        return Parsed(expr, p);
      }
      var op := ToOp(look.t).value;
      if sel(op) < prec {
        return Parsed(expr, p);
      }
      var right := ParseExpr(s, sel, p + 1, sel(op) + 1);
      if right.Failed? {
        return Failed;
      }
      expr, p := BinaryOp(op, expr, right.expr), right.pos;
    }
  }

  /** `parse` for one line: tokenize it and parse one expression at precedence 0. */
  method ParseLine(line: string, sel: BinaryOp -> nat) returns (r: Parsed)
    ensures r == ParseExprSpec(Tokenize(line), sel, 0, 0)
  {
    var s := TokenizeLine(line);
    r := ParseExpr(s, sel, 0, 0);
  }

  // ---- What the precedences mean, on lines of numbers and operators ----

  /** The tokens after the first number: each operator followed by its right-hand number. */
  function Tail(pairs: seq<(BinaryOp, int)>): (r: seq<Token>)
    ensures |r| == 2 * |pairs|
  {
    if pairs == [] then [] else [OpToken(pairs[0].0), Number(pairs[0].1)] + Tail(pairs[1..])
  }

  /** A line without parentheses: `n0 op1 n1 op2 n2 ...`. */
  function Flat(n0: int, pairs: seq<(BinaryOp, int)>): Stream {
    Stream([Number(n0)] + Tail(pairs), false)
  }

  /** Every operator applied left to right. */
  function LeftFold(acc: Expr, pairs: seq<(BinaryOp, int)>): Expr
    decreases |pairs|
  {
    if pairs == [] then acc else LeftFold(BinaryOp(pairs[0].0, acc, Literal(pairs[0].1)), pairs[1..])
  }

  /** A number followed by nothing or by an operator of lower precedence than `prec` parses to itself. */
  lemma SingleNumber(s: Stream, sel: BinaryOp -> nat, pos: nat, prec: nat, pairs: seq<(BinaryOp, int)>, n: int)
    requires !s.panics && pos + 1 <= |s.tokens| && s.tokens[pos] == Number(n)
    requires s.tokens[pos + 1..] == Tail(pairs)
    requires pairs != [] ==> sel(pairs[0].0) < prec
    ensures ParseExprSpec(s, sel, pos, prec) == Parsed(Literal(n), pos + 1)
  {
    if pairs != [] {
      TailStep(s, pos + 1, pairs);
    }
  }

  /** The tokens of `Tail(pairs)` from the second pair on. */
  lemma TailStep(s: Stream, pos: nat, pairs: seq<(BinaryOp, int)>)
    requires pairs != [] && pos <= |s.tokens| && s.tokens[pos..] == Tail(pairs)
    ensures pos + 2 <= |s.tokens|
    ensures s.tokens[pos] == OpToken(pairs[0].0) && s.tokens[pos + 1] == Number(pairs[0].1)
    ensures s.tokens[pos + 2..] == Tail(pairs[1..])
  {
    assert s.tokens[pos] == Tail(pairs)[0] && s.tokens[pos + 1] == Tail(pairs)[1];
    assert s.tokens[pos + 2..] == Tail(pairs)[2..];
  }

  /**
   * An operator the loop accepts, followed by a number and then nothing or an operator that does
   * not bind tighter, takes just that number as its right operand.
   */
  lemma OperatorStep(s: Stream, sel: BinaryOp -> nat, prec: nat, acc: Expr, pos: nat, pairs: seq<(BinaryOp, int)>)
    requires !s.panics && pos <= |s.tokens| && s.tokens[pos..] == Tail(pairs)
    requires pairs != [] && prec <= sel(pairs[0].0)
    requires |pairs| > 1 ==> sel(pairs[1].0) <= sel(pairs[0].0)
    ensures ParseLoop(s, sel, prec, acc, pos) ==
      ParseLoop(s, sel, prec, BinaryOp(pairs[0].0, acc, Literal(pairs[0].1)), pos + 2)
  {
    TailStep(s, pos, pairs);
    var op, n := pairs[0].0, pairs[0].1;
    ToOpOfToken(op);
    SingleNumber(s, sel, pos + 1, sel(op) + 1, pairs[1..], n);
  }

  /** With one precedence for both operators, the loop folds the rest of the line from the left. */
  lemma {:induction false} LoopLeftAssociative(s: Stream, sel: BinaryOp -> nat, acc: Expr, pos: nat, pairs: seq<(BinaryOp, int)>)
    requires sel(Add) == sel(Multiply) && !s.panics
    requires pos <= |s.tokens| && s.tokens[pos..] == Tail(pairs)
    ensures ParseLoop(s, sel, 0, acc, pos) == Parsed(LeftFold(acc, pairs), |s.tokens|)
    decreases |pairs|
  {
    if pairs == [] {
      assert pos == |s.tokens|;
    } else {
      TailStep(s, pos, pairs);
      var op, n := pairs[0].0, pairs[0].1;
      OperatorStep(s, sel, 0, acc, pos, pairs);
      LoopLeftAssociative(s, sel, BinaryOp(op, acc, Literal(n)), pos + 2, pairs[1..]);
    }
  }

  /**
   * With equal precedences (part one) a line without parentheses is read left to right:
   * `a op b op c` is `(a op b) op c`.
   */
  lemma LeftAssociative(sel: BinaryOp -> nat, n0: int, pairs: seq<(BinaryOp, int)>)
    requires sel(Add) == sel(Multiply)
    ensures ParseExprSpec(Flat(n0, pairs), sel, 0, 0) == Parsed(LeftFold(Literal(n0), pairs), 1 + 2 * |pairs|)
  {
    var s := Flat(n0, pairs);
    assert s.tokens[1..] == Tail(pairs);
    LoopLeftAssociative(s, sel, Literal(n0), 1, pairs);
  }

  /** The value with additions done first: the product of the sums between the multiplications. */
  function AddFirst(product: int, sum: int, pairs: seq<(BinaryOp, int)>): int
    decreases |pairs|
  {
    if pairs == [] then product * sum
    else if pairs[0].0 == Add then AddFirst(product, sum + pairs[0].1, pairs[1..])
    else AddFirst(product * sum, pairs[0].1, pairs[1..])
  }

  /** The number of additions the pairs start with. */
  function AddRun(pairs: seq<(BinaryOp, int)>): (k: nat)
    ensures k <= |pairs| && (k < |pairs| ==> pairs[k].0 == Multiply)
    ensures forall i :: 0 <= i < k ==> pairs[i].0 == Add
  {
    if pairs == [] || pairs[0].0 == Multiply then 0
    else
      var k := AddRun(pairs[1..]);
      assert pairs[0].0 == Add;
      assert forall i :: 1 <= i < 1 + k ==> pairs[i].0 == pairs[1..][i - 1].0 == Add;
      1 + k
  }

  function SumOf(pairs: seq<(BinaryOp, int)>): int {
    if pairs == [] then 0 else pairs[0].1 + SumOf(pairs[1..])
  }

  /** Additions at the front of the pairs join the running sum. */
  lemma {:induction false} AddFirstRun(product: int, sum: int, pairs: seq<(BinaryOp, int)>)
    ensures AddFirst(product, sum, pairs) == AddFirst(product, sum + SumOf(pairs[..AddRun(pairs)]), pairs[AddRun(pairs)..])
    decreases |pairs|
  {
    if pairs != [] && pairs[0].0 == Add {
      AddFirstRun(product, sum + pairs[0].1, pairs[1..]);
      assert pairs[1..][AddRun(pairs[1..])..] == pairs[AddRun(pairs)..];
      assert pairs[..AddRun(pairs)][1..] == pairs[1..][..AddRun(pairs[1..])];
    }
  }

  /** Before a multiplication or the end, the sum may as well be multiplied in already. */
  lemma AddFirstClose(product: int, sum: int, pairs: seq<(BinaryOp, int)>)
    requires pairs == [] || pairs[0].0 == Multiply
    ensures AddFirst(product, sum, pairs) == AddFirst(1, product * sum, pairs)
  {
  }

  /**
   * Above the precedence of multiplication and at most that of addition, the loop takes the run
   * of additions and stops before the next multiplication.
   */
  lemma {:induction false} LoopTakesAdditions(s: Stream, sel: BinaryOp -> nat, acc: Expr, pos: nat, pairs: seq<(BinaryOp, int)>)
    requires sel(Multiply) < sel(Add) && !s.panics
    requires pos <= |s.tokens| && s.tokens[pos..] == Tail(pairs)
    ensures var r := ParseLoop(s, sel, sel(Multiply) + 1, acc, pos);
      r.Parsed? && r.pos == pos + 2 * AddRun(pairs) &&
      Eval(r.expr) == Eval(acc) + SumOf(pairs[..AddRun(pairs)])
    decreases |pairs|
  {
    if pairs != [] {
      TailStep(s, pos, pairs);
      var op, n := pairs[0].0, pairs[0].1;
      ToOpOfToken(op);
      if op == Add {
        OperatorStep(s, sel, sel(Multiply) + 1, acc, pos, pairs);
        LoopTakesAdditions(s, sel, BinaryOp(Add, acc, Literal(n)), pos + 2, pairs[1..]);
        assert pairs[..AddRun(pairs)][1..] == pairs[1..][..AddRun(pairs[1..])];
      }
    } else {
      assert pos == |s.tokens|;
    }
  }

  /** At precedence 0 with additions first, the loop evaluates the rest of the line additions first. */
  lemma {:induction false} LoopAdditionsFirst(s: Stream, sel: BinaryOp -> nat, acc: Expr, pos: nat, pairs: seq<(BinaryOp, int)>)
    requires sel(Multiply) < sel(Add) && !s.panics
    requires pos <= |s.tokens| && s.tokens[pos..] == Tail(pairs)
    ensures var r := ParseLoop(s, sel, 0, acc, pos);
      r.Parsed? && r.pos == |s.tokens| && Eval(r.expr) == AddFirst(1, Eval(acc), pairs)
    decreases |pairs|, 1
  {
    if pairs == [] {
      assert pos == |s.tokens|;
    } else {
      TailStep(s, pos, pairs);
      var op, n := pairs[0].0, pairs[0].1;
      var rest := pairs[1..];
      ToOpOfToken(op);
      if op == Add {
        OperatorStep(s, sel, 0, acc, pos, pairs);
        LoopAdditionsFirst(s, sel, BinaryOp(Add, acc, Literal(n)), pos + 2, rest);
      } else {
        MultiplyStep(s, sel, acc, pos, pairs);
      }
    }
  }

  /** The right operand of a multiplication: its number and the run of additions after it. */
  lemma MultiplyRight(s: Stream, sel: BinaryOp -> nat, pos: nat, pairs: seq<(BinaryOp, int)>)
    requires sel(Multiply) < sel(Add) && !s.panics
    requires pos <= |s.tokens| && s.tokens[pos..] == Tail(pairs)
    requires pairs != [] && pairs[0].0 == Multiply
    ensures var right, k := ParseExprSpec(s, sel, pos + 1, sel(Multiply) + 1), AddRun(pairs[1..]);
      right.Parsed? && right.pos == pos + 2 + 2 * k && s.tokens[right.pos..] == Tail(pairs[1..][k..]) &&
      Eval(right.expr) == pairs[0].1 + SumOf(pairs[1..][..k])
  {
    TailStep(s, pos, pairs);
    var n, rest := pairs[0].1, pairs[1..];
    LoopTakesAdditions(s, sel, Literal(n), pos + 2, rest);
    assert ParseAtomSpec(s, sel, pos + 1) == Parsed(Literal(n), pos + 2);
    var k := AddRun(rest);
    TailSplit(rest, k);
    assert s.tokens[pos + 2..][2 * k..] == Tail(rest[k..]);
  }

  /** A multiplication at precedence 0 takes the run of additions after it as its right operand. */
  lemma {:induction false} MultiplyStep(s: Stream, sel: BinaryOp -> nat, acc: Expr, pos: nat, pairs: seq<(BinaryOp, int)>)
    requires sel(Multiply) < sel(Add) && !s.panics
    requires pos <= |s.tokens| && s.tokens[pos..] == Tail(pairs)
    requires pairs != [] && pairs[0].0 == Multiply
    ensures var r := ParseLoop(s, sel, 0, acc, pos);
      r.Parsed? && r.pos == |s.tokens| && Eval(r.expr) == AddFirst(1, Eval(acc), pairs)
    decreases |pairs|, 0
  {
    TailStep(s, pos, pairs);
    var n, rest := pairs[0].1, pairs[1..];
    ToOpOfToken(Multiply);
    MultiplyRight(s, sel, pos, pairs);
    var k := AddRun(rest);
    var right := ParseExprSpec(s, sel, pos + 1, sel(Multiply) + 1);
    var next := BinaryOp(Multiply, acc, right.expr);
    assert ParseLoop(s, sel, 0, acc, pos) == ParseLoop(s, sel, 0, next, right.pos);
    LoopAdditionsFirst(s, sel, next, right.pos, rest[k..]);
    AddFirstRun(Eval(acc), n, rest);
    AddFirstClose(Eval(acc), n + SumOf(rest[..k]), rest[k..]);
  }

  lemma {:induction false} TailSplit(pairs: seq<(BinaryOp, int)>, k: nat)
    requires k <= |pairs|
    ensures Tail(pairs) == Tail(pairs[..k]) + Tail(pairs[k..])
    decreases k
  {
    if k > 0 {
      TailSplit(pairs[1..], k - 1);
      assert pairs[..k][1..] == pairs[1..][..k - 1];
      assert pairs[1..][k - 1..] == pairs[k..];
    } else {
      assert pairs[..0] == [] && pairs[0..] == pairs;
    }
  }

  /**
   * With addition above multiplication (part two, `Add` 3 and `Multiply` 1) a line without
   * parentheses evaluates to the product of its sums: additions group before multiplications.
   */
  lemma AdditionsFirst(sel: BinaryOp -> nat, n0: int, pairs: seq<(BinaryOp, int)>)
    requires sel(Multiply) < sel(Add)
    ensures var r := ParseExprSpec(Flat(n0, pairs), sel, 0, 0);
      r.Parsed? && r.pos == 1 + 2 * |pairs| && Eval(r.expr) == AddFirst(1, n0, pairs)
  {
    var s := Flat(n0, pairs);
    assert s.tokens[1..] == Tail(pairs);
    LoopAdditionsFirst(s, sel, Literal(n0), 1, pairs);
  }

  /** The example `1 + 2 * 3 + 4 * 5 + 6` is 71 read left to right and 231 with additions first. */
  lemma SampleLine()
    ensures var pairs := [(Add, 2), (Multiply, 3), (Add, 4), (Multiply, 5), (Add, 6)];
      Eval(LeftFold(Literal(1), pairs)) == 71 && AddFirst(1, 1, pairs) == 231
  {
  }

  /** `parse` of one line and the evaluation of its expression; `None` when that panics. */
  ghost function LineValue(line: string, sel: BinaryOp -> nat): Option<int> {
    var p := ParseExprSpec(Tokenize(line), sel, 0, 0);
    if p.Parsed? then Some(Eval(p.expr)) else None
  }

  /** The sum of the values of the lines, as long as every line parses. */
  ghost function SumOfValues(lines: seq<string>, sel: BinaryOp -> nat): Option<int> {
    if lines == [] then Some(0)
    else
      var sum, v := SumOfValues(lines[..|lines| - 1], sel), LineValue(lines[|lines| - 1], sel);
      if sum.Some? && v.Some? then Some(sum.value + v.value) else None
  }

  /** The homework: the sum of the values of the lines; `None` when some line panics. */
  method Homework(lines: seq<string>, sel: BinaryOp -> nat) returns (r: Option<int>)
    ensures r == SumOfValues(lines, sel)
  {
    var total := 0;
    for k := 0 to |lines|
      invariant SumOfValues(lines[..k], sel) == Some(total)
    {
      var v := EvalLine(lines[k], sel);
      SumStep(lines, k, sel, total);
      if v.None? {
        NoneStays(lines, k + 1, sel);
        return None;
      }
      total := total + v.value;
    }
    assert lines[..|lines|] == lines;
    return Some(total);
  }

  /** One line parsed and evaluated. */
  method EvalLine(line: string, sel: BinaryOp -> nat) returns (v: Option<int>)
    ensures v == LineValue(line, sel)
  {
    var p := ParseLine(line, sel);
    v := if p.Parsed? then Some(Eval(p.expr)) else None;
  }

  lemma SumStep(lines: seq<string>, k: nat, sel: BinaryOp -> nat, total: int)
    requires k < |lines| && SumOfValues(lines[..k], sel) == Some(total)
    ensures LineValue(lines[k], sel).None? ==> SumOfValues(lines[..k + 1], sel) == None
    ensures LineValue(lines[k], sel).Some? ==> SumOfValues(lines[..k + 1], sel) == Some(total + LineValue(lines[k], sel).value)
  {
    assert lines[..k + 1][..k] == lines[..k] && lines[..k + 1][k] == lines[k];
  }

  /** Once a line panics, so does every longer prefix. */
  lemma {:induction false} NoneStays(lines: seq<string>, k: nat, sel: BinaryOp -> nat)
    requires k <= |lines| && SumOfValues(lines[..k], sel).None?
    ensures SumOfValues(lines, sel).None?
    decreases |lines| - k
  {
    if k < |lines| {
      assert lines[..k + 1][..k] == lines[..k];
      NoneStays(lines, k + 1, sel);
    } else {
      assert lines[..k] == lines;
    }
  }
}
