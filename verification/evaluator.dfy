/** The postfix (reverse-Polish) expression evaluator. */
module Evaluator {
  import opened Wrappers
  import opened Text
  import opened Numbers
  import opened Values
  import opened Names
  import opened Constants

  /** A token after classification. */
  datatype Token = Operand(v: Value) | Operator(op: Op) | Unknown(text: string)

  /** The spelling of each operator. */
  function OpName(op: Op): string {
    match op
    case Add => "+"
    case Sub => "-"
    case Mul => "*"
    case Mod => "mod"
    case Max => "max"
  }

  /** The five operator spellings the evaluator recognises. */
  predicate IsOperatorName(tok: string) {
    tok == "mod" || tok == "max" || tok == "+" || tok == "-" || tok == "*"
  }

  /** Token classification, in its fixed order: a constant name first, then a
      numeric literal (a float when it contains a dot, an integer otherwise),
      then the operators; anything else is unknown. */
  function Classify(tok: string, consts: Table): (k: Token)
    ensures tok in consts ==> k == Operand(consts[tok])
    ensures k.Operand? && ValidTable(consts) ==> k.v.IsScalar()
    ensures k.Unknown? <==> tok !in consts && !IsNumericLiteral(tok) && !IsOperatorName(tok)
    ensures k.Unknown? ==> k.text == tok
    ensures k.Operator? ==> tok == OpName(k.op)
  {
    if tok in consts then Operand(consts[tok])
    else if IsNumericLiteral(tok) then
      DotSeparatesLiterals(tok);
      if '.' in tok then Operand(Flt(tok)) else Operand(Int(ParseInt(tok)))
    else if tok == "mod" then Operator(Mod)
    else if tok == "max" then Operator(Max)
    else if tok == "+" then Operator(Add)
    else if tok == "-" then Operator(Sub)
    else if tok == "*" then Operator(Mul)
    else Unknown(tok)
  }

  /** `a OP b` in Python, for int and bool operands: `+ - *` are exact,
      `mod` is the floored remainder and fails on a zero divisor, `max`
      returns the first operand unless the second is strictly greater.
      Float and string operands are reported rather than computed. */
  function Apply(op: Op, a: Value, b: Value): (r: Result<Value, Error>)
    ensures r.Success? <==> a.IsIntLike() && b.IsIntLike() && !(op == Mod && b.IntValue() == 0)
    ensures r.Failure? && !(a.IsIntLike() && b.IsIntLike()) ==> r.error == NonIntegerOperands(op)
    ensures r.Success? ==> r.value.IsIntLike()
    ensures r.Success? && op == Add ==> r.value.IntValue() == a.IntValue() + b.IntValue()
    ensures r.Success? && op == Sub ==> r.value.IntValue() == a.IntValue() - b.IntValue()
    ensures r.Success? && op == Mul ==> r.value.IntValue() == a.IntValue() * b.IntValue()
    ensures r.Success? && op == Mod ==>
      var x, y, z := a.IntValue(), b.IntValue(), r.value.IntValue();
      (y > 0 ==> 0 <= z < y) && (y < 0 ==> y < z <= 0) && x == y * FloorDiv(x, y) + z
    ensures r.Success? && op == Max ==>
      (r.value == a || r.value == b)
      && r.value.IntValue() >= a.IntValue() && r.value.IntValue() >= b.IntValue()
      && (r.value != a ==> b.IntValue() > a.IntValue())
  {
    if !(a.IsIntLike() && b.IsIntLike()) then Failure(NonIntegerOperands(op))
    else
      var x, y := a.IntValue(), b.IntValue();
      match op
      case Add => Success(Int(x + y))
      case Sub => Success(Int(x - y))
      case Mul => Success(Int(x * y))
      case Mod => if y == 0 then Failure(DivisionByZero) else Success(Int(FloorMod(x, y)))
      case Max => Success(if y > x then b else a)
  }

  /** One step of the stack machine. An operand is pushed. An operator needs
      two entries; it pops `b`, then `a`, and pushes `a OP b`, so the stack
      shrinks by exactly one and everything below the two operands stays. */
  function Step(stack: seq<Value>, tok: Token): (r: Result<seq<Value>, Error>)
    ensures tok.Operand? ==> r == Success(stack + [tok.v])
    ensures tok.Unknown? ==> r == Failure(UnknownToken(tok.text))
    ensures tok.Operator? && |stack| < 2 ==> r == Failure(InsufficientOperands(tok.op))
    ensures tok.Operator? && |stack| >= 2 ==>
      var a, b := stack[|stack| - 2], stack[|stack| - 1];
      match Apply(tok.op, a, b)
      case Success(c) => r.Success? && |r.value| == |stack| - 1
        && r.value[..|stack| - 2] == stack[..|stack| - 2] && r.value[|stack| - 2] == c
      case Failure(e) => r == Failure(e)
  {
    match tok
    case Operand(v) => Success(stack + [v])
    case Unknown(t) => Failure(UnknownToken(t))
    case Operator(op) =>
      if |stack| < 2 then Failure(InsufficientOperands(op))
      else
        var b := stack[|stack| - 1];
        var a := stack[|stack| - 2];
        var c :- Apply(op, a, b);
        Success(stack[..|stack| - 2] + [c])
  }

  /** The stack machine run over a token sequence, left to right; the first
      failing step ends the run. */
  function Run(toks: seq<Token>, stack: seq<Value>): Result<seq<Value>, Error> {
    if toks == [] then Success(stack)
    else
      var next :- Step(stack, toks[0]);
      Run(toks[1..], next)
  }

  /** Only scalars ever reach the stack: the operands of a valid table and
      literals are scalars, and every operator result is an integer. */
  lemma {:induction false} RunKeepsScalars(toks: seq<Token>, stack: seq<Value>, consts: Table)
    requires forall i :: 0 <= i < |stack| ==> stack[i].IsScalar()
    requires forall i :: 0 <= i < |toks| && toks[i].Operand? ==> toks[i].v.IsScalar()
    ensures Run(toks, stack).Success? ==>
      forall i :: 0 <= i < |Run(toks, stack).value| ==> Run(toks, stack).value[i].IsScalar()
  {
    if toks != [] && Step(stack, toks[0]).Success? {
      var next := Step(stack, toks[0]).value;
      assert forall i :: 0 <= i < |next| ==> next[i].IsScalar() by {
        if toks[0].Operator? {
          forall i | 0 <= i < |next| ensures next[i].IsScalar() {
            if i < |stack| - 2 {
              assert next[i] == next[..|stack| - 2][i];
            }
          }
        }
      }
      assert forall i :: 0 <= i < |toks[1..]| && toks[1..][i].Operand? ==> toks[1..][i].v.IsScalar() by {
        forall i | 0 <= i < |toks[1..]| && toks[1..][i].Operand? ensures toks[1..][i].v.IsScalar() {
          assert toks[1..][i] == toks[i + 1];
        }
      }
      RunKeepsScalars(toks[1..], next, consts);
    }
  }

  /** The characters `expr.strip('$()\'"')` removes from both ends. */
  predicate IsWrapperChar(c: char) {
    c in "$()'\""
  }

  /** `$(...)` syntax: the text of a string that is evaluated. */
  predicate IsExpressionMarker(s: string) {
    StartsWith(s, "$(") && EndsWith(s, ")")
  }

  /** Each word classified on its own, in order. */
  function ClassifyAll(words: seq<string>, consts: Table): (toks: seq<Token>)
    ensures |toks| == |words|
    ensures forall i :: 0 <= i < |words| ==> toks[i] == Classify(words[i], consts)
  {
    seq(|words|, i requires 0 <= i < |words| => Classify(words[i], consts))
  }

  /** The tokens of an expression: the wrapper stripped, then split on
      whitespace, then classified. */
  function Tokens(expr: string, consts: Table): (toks: seq<Token>)
    ensures ValidTable(consts) ==> forall i :: 0 <= i < |toks| && toks[i].Operand? ==> toks[i].v.IsScalar()
  {
    ClassifyAll(Words(Trim(expr, IsWrapperChar)), consts)
  }

  /** `evaluate_expression`: run the tokens on an empty stack; exactly one
      value must be left, and it is the result. */
  function Evaluate(expr: string, consts: Table): (r: Result<Value, Error>)
    ensures r.Success? && ValidTable(consts) ==> r.value.IsScalar()
    ensures var run := Run(Tokens(expr, consts), []);
      && (r.Success? ==> run == Success([r.value]))
      && (run.Success? && |run.value| != 1 ==> r == Failure(InvalidExpression(expr)))
      && (r.Failure? && run.Failure? ==> r.error == run.error)
      && (run.Success? && |run.value| == 1 ==> r == Success(run.value[0]))
  {
    var stack :- Run(Tokens(expr, consts), []);
    assert ValidTable(consts) ==> forall i :: 0 <= i < |stack| ==> stack[i].IsScalar() by {
      if ValidTable(consts) {
        RunKeepsScalars(Tokens(expr, consts), [], consts);
      }
    }
    if |stack| != 1 then Failure(InvalidExpression(expr))
    else
      assert stack == [stack[0]];
      Success(stack[0])
  }
}

/** Properties of the evaluator: token classification, the stack discipline,
    and agreement with evaluation of expression trees. */
module EvaluatorFacts {
  import opened Wrappers
  import opened Text
  import opened TextFacts
  import opened Numbers
  import opened Values
  import opened Names
  import opened Constants
  import opened Evaluator

  /** A constant named like an operator shadows it (only `mod` and `max` can
      be names); the symbolic operators, the lone `-` included, are never
      shadowed nor read as numbers. */
  lemma OperatorTokens(op: Op, consts: Table)
    requires ValidTable(consts)
    ensures OpName(op) in consts ==> Classify(OpName(op), consts) == Operand(consts[OpName(op)])
    ensures OpName(op) !in consts ==> Classify(OpName(op), consts) == Operator(op)
    ensures op in {Add, Sub, Mul} ==> OpName(op) !in consts
  {
    if op in {Add, Sub, Mul} {
      assert !IsIdentStart(OpName(op)[0]);
    }
    assert !IsNumericLiteral(OpName(op)) by {
      var t := OpName(op);
      var u := Unsigned(t);
      if op == Sub {
        assert u == [];
      } else {
        assert u == t && !IsDigit(u[0]);
      }
    }
  }

  /** The operator spellings are exactly the names of the operators. */
  lemma OperatorNames(tok: string)
    ensures IsOperatorName(tok) <==> exists op: Op :: tok == OpName(op)
  {
    if tok == "mod" { assert tok == OpName(Mod); }
    if tok == "max" { assert tok == OpName(Max); }
    if tok == "+" { assert tok == OpName(Add); }
    if tok == "-" { assert tok == OpName(Sub); }
    if tok == "*" { assert tok == OpName(Mul); }
  }

  /** The types of operator results, as Python gives them for int and bool
      operands: `+ - *` and `mod` always yield an `int` (so `True + False`
      is `1`, not a boolean), while `max` hands back one of its operands
      unchanged; `mod` by zero is the division-by-zero error. */
  lemma ApplyResultKinds(op: Op, a: Value, b: Value)
    ensures var r := Apply(op, a, b);
      && (r.Success? && op != Max ==> r.value.Int?)
      && (r.Success? && op == Max ==> r.value == (if b.IntValue() > a.IntValue() then b else a))
      && (a.IsIntLike() && b.IsIntLike() && op == Mod && b.IntValue() == 0 ==> r == Failure(DivisionByZero))
  {
  }

  /** A numeric literal can never be a constant name, so it always stands for
      its own value: an integer literal for the integer it spells, any other
      literal for a float. */
  lemma LiteralsNotShadowed(tok: string, consts: Table)
    requires ValidTable(consts) && IsNumericLiteral(tok)
    ensures tok !in consts
    ensures IsIntLiteral(tok) ==> Classify(tok, consts) == Operand(Int(ParseInt(tok)))
    ensures !IsIntLiteral(tok) ==> Classify(tok, consts) == Operand(Flt(tok))
  {
    var u := Unsigned(tok);
    assert tok[0] == '-' || IsDigit(tok[0]) by {
      if tok[0] != '-' {
        assert u == tok;
        if !IsIntLiteral(tok) {
          var i :| 0 < i < |u| - 1 && u[i] == '.' && IsDigitRun(u[..i]) && IsDigitRun(u[i + 1..]);
          assert u[..i][0] == u[0];
        }
      }
    }
    assert !ValidName(tok);
    DotSeparatesLiterals(tok);
  }

  /** The text `str(n)` of an integer, read back as a token, is that integer. */
  lemma IntTextIsOperand(n: int, consts: Table)
    requires ValidTable(consts)
    ensures Classify(IntToString(n), consts) == Operand(Int(n))
  {
    LiteralsNotShadowed(IntToString(n), consts);
  }

  /** The words of an expression `$(m)` whose inner text `m` is `words`
      joined by single spaces. */
  lemma ExpressionWords(expr: string, m: string, words: seq<string>)
    requires expr == "$(" + m + ")" && m == Join(" ", words)
    requires m != [] && !IsWrapperChar(m[0]) && !IsWrapperChar(m[|m| - 1])
    requires forall k :: 0 <= k < |words| ==> words[k] != [] && NoSpace(words[k])
    ensures Words(Trim(expr, IsWrapperChar)) == words
  {
    WrapperParts();
    TrimUnique("$(", m, ")", IsWrapperChar);
    WordsOfJoin(words);
  }

  /** `$(` and `)` are made of characters `strip` removes. */
  lemma WrapperParts()
    ensures forall i :: 0 <= i < |"$("| ==> IsWrapperChar("$("[i])
    ensures forall i :: 0 <= i < |")"| ==> IsWrapperChar(")"[i])
  {
    assert "$("[0] == '$' && "$("[1] == '(';
  }

  /** Running a concatenation runs the first part, then the second on the
      stack the first part left. */
  lemma {:induction false} RunAppend(a: seq<Token>, b: seq<Token>, stack: seq<Value>)
    ensures Run(a + b, stack) ==
      match Run(a, stack)
      case Success(s) => Run(b, s)
      case Failure(e) => Failure(e)
  {
    if a != [] {
      assert (a + b)[0] == a[0] && (a + b)[1..] == a[1..] + b;
      match Step(stack, a[0])
      case Success(next) => RunAppend(a[1..], b, next);
      case Failure(_) =>
    } else {
      assert a + b == b;
    }
  }

  /** An expression tree: a value, or an operator applied to two subtrees. */
  datatype Expr = Leaf(v: Value) | Node(op: Op, left: Expr, right: Expr)

  /** The postfix spelling of a tree: left operand, right operand, operator. */
  function Postfix(e: Expr): seq<Token> {
    match e
    case Leaf(v) => [Operand(v)]
    case Node(op, l, r) => Postfix(l) + Postfix(r) + [Operator(op)]
  }

  /** The reference semantics: evaluate the left subtree, then the right one,
      then combine. */
  function EvalTree(e: Expr): Result<Value, Error> {
    match e
    case Leaf(v) => Success(v)
    case Node(op, l, r) =>
      var a :- EvalTree(l);
      var b :- EvalTree(r);
      Apply(op, a, b)
  }

  /** The stack machine run on a postfix spelling pushes exactly the tree's
      value on whatever stack it starts from, or fails with the error the
      tree evaluation meets first. */
  lemma {:induction false} RunPostfix(e: Expr, stack: seq<Value>)
    ensures Run(Postfix(e), stack) ==
      match EvalTree(e)
      case Success(v) => Success(stack + [v])
      case Failure(err) => Failure(err)
  {
    match e
    case Leaf(v) =>
    case Node(op, l, r) =>
      RunAppend(Postfix(l) + Postfix(r), [Operator(op)], stack);
      RunAppend(Postfix(l), Postfix(r), stack);
      RunPostfix(l, stack);
      match EvalTree(l)
      case Failure(_) =>
      case Success(a) =>
        RunPostfix(r, stack + [a]);
        match EvalTree(r)
        case Failure(_) =>
        case Success(b) => RunOperator(op, stack, a, b);
  }

  /** An operator run on two pushed operands replaces them by its result. */
  lemma RunOperator(op: Op, stack: seq<Value>, a: Value, b: Value)
    ensures Apply(op, a, b).Success? ==>
      Run([Operator(op)], stack + [a] + [b]) == Success(stack + [Apply(op, a, b).value])
    ensures Apply(op, a, b).Failure? ==>
      Run([Operator(op)], stack + [a] + [b]) == Failure(Apply(op, a, b).error)
  {
    var s := stack + [a] + [b];
    assert s[..|s| - 2] == stack && s[|s| - 2] == a && s[|s| - 1] == b;
    assert [Operator(op)][1..] == [];
  }

  /** Evaluating the text of a well-formed postfix expression gives the value
      of its tree: N operands and N-1 operators in postfix order leave exactly
      one value. */
  lemma EvaluatePostfix(expr: string, consts: Table, e: Expr)
    requires Tokens(expr, consts) == Postfix(e)
    ensures Evaluate(expr, consts) == EvalTree(e)
  {
    RunPostfix(e, []);
  }

  /** Every operator of `toks` finds at least two entries when the stack
      starts `depth` deep, and every token is known. */
  predicate NoUnderflow(toks: seq<Token>, depth: int) {
    if toks == [] then true
    else match toks[0]
      case Operand(_) => NoUnderflow(toks[1..], depth + 1)
      case Operator(_) => depth >= 2 && NoUnderflow(toks[1..], depth - 1)
      case Unknown(_) => false
  }

  /** The stack depth after `toks` from `depth`: one up per operand, one down
      per operator. */
  function FinalDepth(toks: seq<Token>, depth: int): int {
    if toks == [] then depth
    else match toks[0]
      case Operand(_) => FinalDepth(toks[1..], depth + 1)
      case Operator(_) => FinalDepth(toks[1..], depth - 1)
      case Unknown(_) => FinalDepth(toks[1..], depth)
  }

  /** A successful run never underflowed, and leaves a stack exactly as deep
      as the operand/operator count predicts. */
  lemma {:induction false} RunSuccessIsBalanced(toks: seq<Token>, stack: seq<Value>)
    requires Run(toks, stack).Success?
    ensures NoUnderflow(toks, |stack|)
    ensures |Run(toks, stack).value| == FinalDepth(toks, |stack|)
  {
    if toks != [] {
      var next := Step(stack, toks[0]).value;
      RunSuccessIsBalanced(toks[1..], next);
    }
  }

  /** The stack holds integers (or booleans) only. */
  predicate AllIntLike(stack: seq<Value>) {
    forall i :: 0 <= i < |stack| ==> stack[i].IsIntLike()
  }

  /** Every token is known, and every operand is an integer (or boolean). */
  predicate IntTokens(toks: seq<Token>) {
    forall i :: 0 <= i < |toks| ==> !toks[i].Unknown? && (toks[i].Operand? ==> toks[i].v.IsIntLike())
  }

  /** No token is the `mod` operator. */
  predicate ModFree(toks: seq<Token>) {
    forall i :: 0 <= i < |toks| ==> toks[i] != Operator(Mod)
  }

  /** On integer tokens the stack discipline alone decides the run: with
      enough operands for every operator it succeeds (unless a `mod` divides
      by zero); otherwise it fails for lack of operands (or an earlier zero
      divisor). Without `mod` this is an exact characterisation. */
  lemma {:induction false} RunIntTokens(toks: seq<Token>, stack: seq<Value>)
    requires AllIntLike(stack) && IntTokens(toks)
    ensures NoUnderflow(toks, |stack|) ==>
      Run(toks, stack).Success? || Run(toks, stack) == Failure(DivisionByZero)
    ensures !NoUnderflow(toks, |stack|) ==>
      Run(toks, stack).Failure? &&
      (Run(toks, stack).error.InsufficientOperands? || Run(toks, stack).error == DivisionByZero)
    ensures ModFree(toks) ==>
      (Run(toks, stack).Success? <==> NoUnderflow(toks, |stack|))
      && (Run(toks, stack).Failure? ==> Run(toks, stack).error.InsufficientOperands?)
  {
    if toks != [] {
      var t := toks[0];
      assert IntTokens(toks[1..]) by {
        forall i | 0 <= i < |toks[1..]| ensures !toks[1..][i].Unknown? {
          assert toks[1..][i] == toks[i + 1];
        }
      }
      assert ModFree(toks) ==> ModFree(toks[1..]) by {
        if ModFree(toks) {
          forall i | 0 <= i < |toks[1..]| ensures toks[1..][i] != Operator(Mod) {
            assert toks[1..][i] == toks[i + 1];
          }
        }
      }
      assert !t.Unknown?;
      match Step(stack, t)
      case Success(next) =>
        assert AllIntLike(next) by {
          if t.Operator? {
            forall i | 0 <= i < |next| ensures next[i].IsIntLike() {
              if i < |stack| - 2 {
                assert next[i] == next[..|stack| - 2][i];
              }
            }
          }
        }
        RunIntTokens(toks[1..], next);
      case Failure(err) =>
        assert t.Operator?;
        if |stack| >= 2 {
          assert t.op == Mod;
        }
    }
  }

  /** The arity rule at the level of `evaluate_expression`: it succeeds only
      if no operator lacks operands and exactly one value is left; on
      integer, `mod`-free token streams that is also sufficient, and an
      expression with one operand too many (or one operator too few) fails
      as an invalid expression. */
  lemma EvaluateArity(expr: string, consts: Table)
    ensures Evaluate(expr, consts).Success? ==>
      NoUnderflow(Tokens(expr, consts), 0) && FinalDepth(Tokens(expr, consts), 0) == 1
    ensures IntTokens(Tokens(expr, consts)) && ModFree(Tokens(expr, consts)) ==>
      (Evaluate(expr, consts).Success? <==>
        NoUnderflow(Tokens(expr, consts), 0) && FinalDepth(Tokens(expr, consts), 0) == 1)
    ensures (IntTokens(Tokens(expr, consts)) && ModFree(Tokens(expr, consts))
             && NoUnderflow(Tokens(expr, consts), 0) && FinalDepth(Tokens(expr, consts), 0) != 1) ==>
      Evaluate(expr, consts) == Failure(InvalidExpression(expr))
    ensures IntTokens(Tokens(expr, consts)) && !NoUnderflow(Tokens(expr, consts), 0) ==>
      Evaluate(expr, consts).Failure? &&
      (Evaluate(expr, consts).error.InsufficientOperands? || Evaluate(expr, consts).error == DivisionByZero)
  {
    var toks := Tokens(expr, consts);
    if Run(toks, []).Success? {
      RunSuccessIsBalanced(toks, []);
    }
    if IntTokens(toks) {
      RunIntTokens(toks, []);
    }
  }
}
