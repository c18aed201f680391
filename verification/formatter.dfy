/** The recursive value serialiser (`format_value` / `format_dict`). */
module Formatter {
  import opened Wrappers
  import opened Text
  import opened Numbers
  import opened Values
  import opened Names
  import opened Constants
  import opened Evaluator

  /** `indent - 4` spaces, as `' ' * (indent - 4)` gives them (none when
      negative). */
  function ClosingIndent(indent: nat): nat {
    if indent >= 4 then indent - 4 else 0
  }

  /** `format_value`. A `$(...)` string is evaluated and its result written
      bare; any other string is wrapped in single quotes without escaping;
      numbers and booleans take their `str()` text; a list is written on one
      line with its items at the same indent; a mapping goes to
      `FormatMap`; any other node is an error. */
  function FormatValue(v: Value, indent: nat, consts: Table): (r: Result<string, Error>)
    requires ValidTable(consts)
    ensures v.Str? && !IsExpressionMarker(v.str) ==> r == Success("'" + v.str + "'")
    ensures v.Unsupported? ==> r == Failure(UnsupportedValueType(v.typeName))
    decreases v, 1
  {
    match v
    case Str(s) =>
      if IsExpressionMarker(s) then
        var e :- Evaluate(s, consts);
        Success(ScalarText(e))
      else Success("'" + s + "'")
    case Int(n) => Success(IntToString(n))
    case Bool(b) => Success(ScalarText(v))
    case Flt(t) => Success(t)
    case List(items) =>
      var parts :- FormatItems(items, indent, consts);
      Success("{ " + Join(", ", parts) + " }")
    case Map(entries) => FormatMap(entries, indent, consts)
    case Unsupported(name) => Failure(UnsupportedValueType(name))
  }

  /** The list items, each formatted at the same indent, left to right. */
  function FormatItems(items: seq<Value>, indent: nat, consts: Table): (r: Result<seq<string>, Error>)
    requires ValidTable(consts)
    ensures r.Success? ==> |r.value| == |items|
    ensures r.Success? ==> forall i :: 0 <= i < |items| ==>
      FormatValue(items[i], indent, consts) == Success(r.value[i])
    decreases items, 0
  {
    if items == [] then Success([])
    else
      var first :- FormatValue(items[0], indent, consts);
      var rest :- FormatItems(items[1..], indent, consts);
      Success([first] + rest)
  }

  /** One `key : value,` line of a mapping, the value formatted one level
      deeper; the key is validated first. */
  function FormatEntry(e: (string, Value), indent: nat, consts: Table): (r: Result<string, Error>)
    requires ValidTable(consts)
    ensures r.Success? <==> ValidName(e.0) && FormatValue(e.1, indent + 4, consts).Success?
    ensures !ValidName(e.0) ==> r == Failure(InvalidName(e.0))
    ensures ValidName(e.0) && r.Failure? ==> r == FormatValue(e.1, indent + 4, consts)
    ensures r.Success? ==>
      r.value == Spaces(indent) + e.0 + " : " + FormatValue(e.1, indent + 4, consts).value + ","
    decreases e, 0
  {
    var key :- ValidateName(e.0);
    var value :- FormatValue(e.1, indent + 4, consts);
    Success(Spaces(indent) + key + " : " + value + ",")
  }

  /** The entry lines of a mapping, in document order. */
  function FormatEntries(es: seq<(string, Value)>, indent: nat, consts: Table): (r: Result<seq<string>, Error>)
    requires ValidTable(consts)
    ensures r.Success? ==> |r.value| == |es|
    ensures r.Success? ==> forall i :: 0 <= i < |es| ==>
      FormatEntry(es[i], indent, consts) == Success(r.value[i])
    decreases es, 0
  {
    if es == [] then Success([])
    else
      var first :- FormatEntry(es[0], indent, consts);
      var rest :- FormatEntries(es[1..], indent, consts);
      Success([first] + rest)
  }

  /** `format_dict`: the entry lines between `{` and a closing brace one
      level shallower. */
  function FormatMap(es: seq<(string, Value)>, indent: nat, consts: Table): (r: Result<string, Error>)
    requires ValidTable(consts)
    ensures r.Success? <==> FormatEntries(es, indent, consts).Success?
    ensures r.Failure? ==> r == Failure(FormatEntries(es, indent, consts).error)
    ensures r.Success? ==> var lines := FormatEntries(es, indent, consts).value;
      r.value == "{\n" + Join("\n", lines) + "\n" + Spaces(ClosingIndent(indent)) + "}"
    decreases es, 1
  {
    var lines :- FormatEntries(es, indent, consts);
    Success("{\n" + Join("\n", lines) + "\n" + Spaces(ClosingIndent(indent)) + "}")
  }
}

/** What the serialiser promises about success and about the constant table. */
module FormatterFacts {
  import opened Wrappers
  import opened Text
  import opened Values
  import opened Names
  import opened Constants
  import opened Numbers
  import opened TextFacts
  import opened Evaluator
  import opened EvaluatorFacts
  import opened Formatter

  /** A value `format_value` accepts: every embedded expression evaluates,
      every mapping key at every depth is a well-formed name, and no node is
      of an unsupported type. */
  predicate Formattable(v: Value, consts: Table)
    requires ValidTable(consts)
  {
    match v
    case Str(s) => IsExpressionMarker(s) ==> Evaluate(s, consts).Success?
    case List(items) => forall i :: 0 <= i < |items| ==> Formattable(items[i], consts)
    case Map(es) => forall i :: 0 <= i < |es| ==> ValidName(es[i].0) && Formattable(es[i].1, consts)
    case Unsupported(_) => false
    case _ => true
  }

  /** An expression string formats exactly when it evaluates, as the text of
      the value it evaluates to; otherwise it fails with the evaluation's
      error. */
  lemma FormatExpression(s: string, indent: nat, consts: Table)
    requires ValidTable(consts) && IsExpressionMarker(s)
    ensures var r, e := FormatValue(Str(s), indent, consts), Evaluate(s, consts);
      && (r.Success? <==> e.Success?)
      && (r.Success? ==> r.value == ScalarText(e.value))
      && (r.Failure? ==> r.error == e.error)
  {
  }

  /** The other shapes `format_value` writes: an integer as its canonical
      decimal text, a boolean as `True` or `False`, a float as its text, a
      list as `{ ` + its items joined by `, ` + ` }` on one line, or the
      first failing item's error, and a mapping as `format_dict` writes it
      at the same indent. */
  lemma FormatPlainShapes(v: Value, indent: nat, consts: Table)
    requires ValidTable(consts)
    ensures v.Int? ==> FormatValue(v, indent, consts) == Success(IntToString(v.n))
    ensures v.Bool? ==> FormatValue(v, indent, consts) == Success(if v.flag then "True" else "False")
    ensures v.Flt? ==> FormatValue(v, indent, consts) == Success(v.text)
    ensures v.List? ==> (
      FormatValue(v, indent, consts) ==
        match FormatItems(v.items, indent, consts)
        case Success(ps) => Success("{ " + Join(", ", ps) + " }")
        case Failure(e) => Failure(e))
    ensures v.Map? ==> FormatValue(v, indent, consts) == FormatMap(v.entries, indent, consts)
  {
  }

  /** Formatting succeeds exactly on the values described above. */
  lemma {:induction false} FormatSucceedsIff(v: Value, indent: nat, consts: Table)
    requires ValidTable(consts)
    ensures FormatValue(v, indent, consts).Success? <==> Formattable(v, consts)
    decreases v, 1
  {
    match v
    case List(items) => FormatItemsSucceedIff(items, indent, consts);
    case Map(es) => FormatEntriesSucceedIff(es, indent, consts);
    case _ =>
  }

  lemma {:induction false} FormatItemsSucceedIff(items: seq<Value>, indent: nat, consts: Table)
    requires ValidTable(consts)
    ensures FormatItems(items, indent, consts).Success? <==>
      forall i :: 0 <= i < |items| ==> Formattable(items[i], consts)
    decreases items, 0
  {
    if items != [] {
      FormatSucceedsIff(items[0], indent, consts);
      FormatItemsSucceedIff(items[1..], indent, consts);
      assert forall i :: 1 <= i < |items| ==> items[i] == items[1..][i - 1];
    }
  }

  lemma {:induction false} FormatEntriesSucceedIff(es: seq<(string, Value)>, indent: nat, consts: Table)
    requires ValidTable(consts)
    ensures FormatEntries(es, indent, consts).Success? <==>
      forall i :: 0 <= i < |es| ==> ValidName(es[i].0) && Formattable(es[i].1, consts)
    decreases es, 0
  {
    if es != [] {
      FormatEntrySucceedsIff(es[0], indent, consts);
      FormatEntriesSucceedIff(es[1..], indent, consts);
      assert forall i :: 1 <= i < |es| ==> es[i] == es[1..][i - 1];
    }
  }

  lemma {:induction false} FormatEntrySucceedsIff(e: (string, Value), indent: nat, consts: Table)
    requires ValidTable(consts)
    ensures FormatEntry(e, indent, consts).Success? <==> ValidName(e.0) && Formattable(e.1, consts)
    decreases e, 0
  {
    FormatSucceedsIff(e.1, indent + 4, consts);
  }

  /** A list that fails to format reports the error of its first item that
      fails; every item before it formats. */
  lemma FormatItemsFirstError(items: seq<Value>, indent: nat, consts: Table)
    requires ValidTable(consts) && FormatItems(items, indent, consts).Failure?
    ensures exists i :: (0 <= i < |items|
      && FormatValue(items[i], indent, consts) == Failure(FormatItems(items, indent, consts).error)
      && forall j :: 0 <= j < i ==> FormatValue(items[j], indent, consts).Success?)
  {
    var i := FirstFailingItem(items, indent, consts);
    ItemsBeforeFirstFailure(items, indent, consts);
    FirstFailingItemFails(items, indent, consts);
  }

  /** The position of the first item that fails to format, or the length of
      the list when none does. */
  function FirstFailingItem(items: seq<Value>, indent: nat, consts: Table): (i: nat)
    requires ValidTable(consts)
    ensures i <= |items|
  {
    if items == [] || FormatValue(items[0], indent, consts).Failure? then 0
    else 1 + FirstFailingItem(items[1..], indent, consts)
  }

  lemma {:induction false} ItemsBeforeFirstFailure(items: seq<Value>, indent: nat, consts: Table)
    requires ValidTable(consts)
    ensures forall j :: 0 <= j < FirstFailingItem(items, indent, consts) ==>
      FormatValue(items[j], indent, consts).Success?
  {
    if items != [] && FormatValue(items[0], indent, consts).Success? {
      ItemsBeforeFirstFailure(items[1..], indent, consts);
      FirstFailingItemShift(items, indent, consts);
    }
  }

  lemma {:induction false} FirstFailingItemFails(items: seq<Value>, indent: nat, consts: Table)
    requires ValidTable(consts) && FormatItems(items, indent, consts).Failure?
    ensures FirstFailingItem(items, indent, consts) < |items|
    ensures FormatValue(items[FirstFailingItem(items, indent, consts)], indent, consts)
      == Failure(FormatItems(items, indent, consts).error)
  {
    ItemsErrorCons(items, indent, consts);
    if FirstFailingItem(items, indent, consts) != 0 {
      FirstFailingItemFails(items[1..], indent, consts);
      FirstFailingItemShift(items, indent, consts);
    }
  }

  /** Past a first item that formats, the first failure moves one place. */
  lemma FirstFailingItemShift(items: seq<Value>, indent: nat, consts: Table)
    requires ValidTable(consts) && items != [] && FormatValue(items[0], indent, consts).Success?
    ensures FirstFailingItem(items, indent, consts) == FirstFailingItem(items[1..], indent, consts) + 1
    ensures forall j :: 1 <= j < |items| ==> items[j] == items[1..][j - 1]
  {
  }

  /** A failing list fails at its first item or in the rest. */
  lemma ItemsErrorCons(items: seq<Value>, indent: nat, consts: Table)
    requires ValidTable(consts) && FormatItems(items, indent, consts).Failure?
    ensures items != []
    ensures FirstFailingItem(items, indent, consts) == 0 ==>
      FormatValue(items[0], indent, consts) == Failure(FormatItems(items, indent, consts).error)
    ensures FirstFailingItem(items, indent, consts) != 0 ==>
      FormatItems(items[1..], indent, consts).Failure?
      && FormatItems(items, indent, consts).error == FormatItems(items[1..], indent, consts).error
      && FirstFailingItem(items, indent, consts) == 1 + FirstFailingItem(items[1..], indent, consts)
  {
  }

  /** A mapping whose entries fail to format reports the error of its first
      entry that fails; every entry before it formats. */
  lemma FormatEntriesFirstError(es: seq<(string, Value)>, indent: nat, consts: Table)
    requires ValidTable(consts) && FormatEntries(es, indent, consts).Failure?
    ensures exists i :: (0 <= i < |es|
      && FormatEntry(es[i], indent, consts) == Failure(FormatEntries(es, indent, consts).error)
      && forall j :: 0 <= j < i ==> FormatEntry(es[j], indent, consts).Success?)
  {
    var i := FirstFailingEntry(es, indent, consts);
    EntriesBeforeFirstFailure(es, indent, consts);
    FirstFailingEntryFails(es, indent, consts);
  }

  /** The position of the first entry that fails to format, or the number of
      entries when none does. */
  function FirstFailingEntry(es: seq<(string, Value)>, indent: nat, consts: Table): (i: nat)
    requires ValidTable(consts)
    ensures i <= |es|
  {
    if es == [] || FormatEntry(es[0], indent, consts).Failure? then 0
    else 1 + FirstFailingEntry(es[1..], indent, consts)
  }

  lemma {:induction false} EntriesBeforeFirstFailure(es: seq<(string, Value)>, indent: nat, consts: Table)
    requires ValidTable(consts)
    ensures forall j :: 0 <= j < FirstFailingEntry(es, indent, consts) ==>
      FormatEntry(es[j], indent, consts).Success?
  {
    if es != [] && FormatEntry(es[0], indent, consts).Success? {
      EntriesBeforeFirstFailure(es[1..], indent, consts);
      FirstFailingEntryShift(es, indent, consts);
    }
  }

  lemma {:induction false} FirstFailingEntryFails(es: seq<(string, Value)>, indent: nat, consts: Table)
    requires ValidTable(consts) && FormatEntries(es, indent, consts).Failure?
    ensures FirstFailingEntry(es, indent, consts) < |es|
    ensures FormatEntry(es[FirstFailingEntry(es, indent, consts)], indent, consts)
      == Failure(FormatEntries(es, indent, consts).error)
  {
    EntriesErrorCons(es, indent, consts);
    if FormatEntry(es[0], indent, consts).Success? {
      FirstFailingEntryFails(es[1..], indent, consts);
      FirstFailingEntryShift(es, indent, consts);
    }
  }

  /** Past a first entry that formats, the first failure moves one place. */
  lemma FirstFailingEntryShift(es: seq<(string, Value)>, indent: nat, consts: Table)
    requires ValidTable(consts) && es != [] && FormatEntry(es[0], indent, consts).Success?
    ensures FirstFailingEntry(es, indent, consts) == FirstFailingEntry(es[1..], indent, consts) + 1
    ensures FirstFailingEntry(es[1..], indent, consts) < |es| - 1 ==>
      es[FirstFailingEntry(es, indent, consts)] == es[1..][FirstFailingEntry(es[1..], indent, consts)]
    ensures forall j :: 1 <= j < |es| ==> es[j] == es[1..][j - 1]
  {
  }

  /** Failing entries fail at the first entry or in the rest. */
  lemma EntriesErrorCons(es: seq<(string, Value)>, indent: nat, consts: Table)
    requires ValidTable(consts) && FormatEntries(es, indent, consts).Failure?
    ensures es != []
    ensures FormatEntry(es[0], indent, consts).Failure? ==>
      FormatEntries(es, indent, consts).error == FormatEntry(es[0], indent, consts).error
    ensures FormatEntry(es[0], indent, consts).Success? ==>
      FormatEntries(es[1..], indent, consts).Failure?
      && FormatEntries(es, indent, consts).error == FormatEntries(es[1..], indent, consts).error
  {
  }

  /** The value holds no `$(...)` string at any depth. */
  predicate NoExpressions(v: Value) {
    match v
    case Str(s) => !IsExpressionMarker(s)
    case List(items) => forall i :: 0 <= i < |items| ==> NoExpressions(items[i])
    case Map(es) => forall i :: 0 <= i < |es| ==> NoExpressions(es[i].1)
    case _ => true
  }

  /** The constant table is only consulted through embedded expressions: a
      value without any formats the same against every table. */
  lemma {:induction false} ConstantsOnlyReachExpressions(v: Value, indent: nat, c1: Table, c2: Table)
    requires ValidTable(c1) && ValidTable(c2) && NoExpressions(v)
    ensures FormatValue(v, indent, c1) == FormatValue(v, indent, c2)
    decreases v, 1
  {
    match v
    case List(items) => ItemsIgnoreConstants(items, indent, c1, c2);
    case Map(es) => EntriesIgnoreConstants(es, indent, c1, c2);
    case _ =>
  }

  lemma {:induction false} ItemsIgnoreConstants(items: seq<Value>, indent: nat, c1: Table, c2: Table)
    requires ValidTable(c1) && ValidTable(c2)
    requires forall i :: 0 <= i < |items| ==> NoExpressions(items[i])
    ensures FormatItems(items, indent, c1) == FormatItems(items, indent, c2)
    decreases items, 0
  {
    if items != [] {
      ConstantsOnlyReachExpressions(items[0], indent, c1, c2);
      assert forall i :: 1 <= i < |items| ==> items[i] == items[1..][i - 1];
      ItemsIgnoreConstants(items[1..], indent, c1, c2);
    }
  }

  lemma {:induction false} EntriesIgnoreConstants(es: seq<(string, Value)>, indent: nat, c1: Table, c2: Table)
    requires ValidTable(c1) && ValidTable(c2)
    requires forall i :: 0 <= i < |es| ==> NoExpressions(es[i].1)
    ensures FormatEntries(es, indent, c1) == FormatEntries(es, indent, c2)
    decreases es, 0
  {
    if es != [] {
      EntryIgnoresConstants(es[0], indent, c1, c2);
      assert forall i :: 1 <= i < |es| ==> es[i] == es[1..][i - 1];
      EntriesIgnoreConstants(es[1..], indent, c1, c2);
    }
  }

  lemma {:induction false} EntryIgnoresConstants(e: (string, Value), indent: nat, c1: Table, c2: Table)
    requires ValidTable(c1) && ValidTable(c2) && NoExpressions(e.1)
    ensures FormatEntry(e, indent, c1) == FormatEntry(e, indent, c2)
    decreases e, 0
  {
    ConstantsOnlyReachExpressions(e.1, indent + 4, c1, c2);
  }

  /** An expression tree whose leaves are all integers. */
  predicate IntTree(e: Expr) {
    match e
    case Leaf(v) => v.Int?
    case Node(_, l, r) => IntTree(l) && IntTree(r)
  }

  /** The words of a tree of integers in postfix order: `str(n)` for a leaf,
      the operator's name after its two operands. */
  function PostfixWords(e: Expr): seq<string>
    requires IntTree(e)
  {
    match e
    case Leaf(v) => [IntToString(v.n)]
    case Node(op, l, r) => PostfixWords(l) + PostfixWords(r) + [OpName(op)]
  }

  /** A word that survives `split()` whole and that `strip('$()\'"')` does
      not eat into at either end. */
  predicate ExpressionWord(w: string) {
    w != [] && NoSpace(w) && !IsWrapperChar(w[0]) && !IsWrapperChar(w[|w| - 1])
  }

  lemma IntWord(n: int)
    ensures ExpressionWord(IntToString(n))
  {
    IntTextChars(n);
    SignedDigitsWord(IntToString(n));
  }

  /** Digits, with a leading `-` allowed, make an expression word when the
      last one is a digit. */
  lemma SignedDigitsWord(t: string)
    requires |t| > 0
    requires forall i :: 0 <= i < |t| ==> IsDigit(t[i]) || (i == 0 && t[i] == '-')
    requires IsDigit(t[|t| - 1])
    ensures ExpressionWord(t)
  {
    forall i | 0 <= i < |t| ensures !IsSpace(t[i]) {
      assert IsDigit(t[i]) || t[i] == '-';
    }
  }

  lemma OperatorIsWord(op: Op)
    ensures ExpressionWord(OpName(op))
  {
  }

  lemma {:induction false} PostfixWordsShape(e: Expr)
    requires IntTree(e)
    ensures PostfixWords(e) != []
    ensures forall k :: 0 <= k < |PostfixWords(e)| ==> ExpressionWord(PostfixWords(e)[k])
  {
    match e
    case Leaf(v) =>
      IntWord(v.n);
    case Node(op, l, r) =>
      PostfixWordsShape(l);
      PostfixWordsShape(r);
      OperatorIsWord(op);
      WordsConcat(PostfixWords(l), PostfixWords(r), OpName(op));
  }

  /** Expression words stay expression words when lists of them are put
      together. */
  lemma WordsConcat(a: seq<string>, b: seq<string>, w: string)
    requires forall k :: 0 <= k < |a| ==> ExpressionWord(a[k])
    requires forall k :: 0 <= k < |b| ==> ExpressionWord(b[k])
    requires ExpressionWord(w)
    ensures forall k :: 0 <= k < |a + b + [w]| ==> ExpressionWord((a + b + [w])[k])
  {
    forall k | 0 <= k < |a + b + [w]| ensures ExpressionWord((a + b + [w])[k]) {
      if k < |a| {
        assert (a + b + [w])[k] == a[k];
      } else if k < |a| + |b| {
        assert (a + b + [w])[k] == b[k - |a|];
      } else {
        assert (a + b + [w])[k] == w;
      }
    }
  }

  /** Classifying two word lists one after the other is classifying their
      concatenation. */
  lemma ClassifyAllConcat(a: seq<string>, b: seq<string>, consts: Table)
    ensures ClassifyAll(a + b, consts) == ClassifyAll(a, consts) + ClassifyAll(b, consts)
  {
    var x, ya, yb := ClassifyAll(a + b, consts), ClassifyAll(a, consts), ClassifyAll(b, consts);
    forall k | 0 <= k < |a| ensures x[k] == ya[k] {
      assert (a + b)[k] == a[k];
    }
    forall k | 0 <= k < |b| ensures x[|a| + k] == yb[k] {
      assert (a + b)[|a| + k] == b[k];
    }
    PointwiseConcat(x, ya, yb);
  }

  /** A sequence that agrees with `y` and then with `z`, position by
      position, is `y + z`. */
  lemma PointwiseConcat<T>(x: seq<T>, y: seq<T>, z: seq<T>)
    requires |x| == |y| + |z|
    requires forall k :: 0 <= k < |y| ==> x[k] == y[k]
    requires forall k :: 0 <= k < |z| ==> x[|y| + k] == z[k]
    ensures x == y + z
  {
    forall k | |y| <= k < |x| ensures x[k] == (y + z)[k] {
      assert x[|y| + (k - |y|)] == z[k - |y|];
    }
  }

  /** An operator's name is read as that operator when no constant is named
      after an operator. */
  lemma OperatorClassified(op: Op, consts: Table)
    requires ValidTable(consts) && forall o: Op :: OpName(o) !in consts
    ensures ClassifyAll([OpName(op)], consts) == [Operator(op)]
  {
    OperatorTokens(op, consts);
  }

  /** The postfix words are read back as the tree's postfix tokens, provided
      no constant is named after an operator. */
  lemma {:induction false} ClassifyPostfix(e: Expr, consts: Table)
    requires ValidTable(consts) && IntTree(e)
    requires forall op: Op :: OpName(op) !in consts
    ensures ClassifyAll(PostfixWords(e), consts) == Postfix(e)
  {
    match e
    case Leaf(v) =>
      IntTextIsOperand(v.n, consts);
    case Node(op, l, r) =>
      ClassifyPostfix(l, consts);
      ClassifyPostfix(r, consts);
      OperatorClassified(op, consts);
      ClassifyAllConcat(PostfixWords(l) + PostfixWords(r), [OpName(op)], consts);
      ClassifyAllConcat(PostfixWords(l), PostfixWords(r), consts);
  }

  /** `$(` and `)` around a text make it an expression. */
  lemma Marked(j: string)
    ensures IsExpressionMarker("$(" + j + ")")
  {
    var s := "$(" + j + ")";
    assert s[..2] == "$(";
    assert s[|s| - 1..] == ")";
  }

  /** A tree of integers evaluates to an integer, if at all. */
  lemma {:induction false} IntTreeValue(e: Expr)
    requires IntTree(e)
    ensures EvalTree(e).Success? ==> EvalTree(e).value.Int?
  {
    match e
    case Leaf(_) =>
    case Node(op, l, r) =>
      IntTreeValue(l);
      IntTreeValue(r);
  }

  /** The tokens of `$(w1 w2 ... wn)`, the postfix words of a tree joined by
      spaces, are the tree's postfix spelling. */
  lemma PostfixTokens(e: Expr, consts: Table)
    requires ValidTable(consts) && IntTree(e)
    requires forall op: Op :: OpName(op) !in consts
    ensures var s := "$(" + Join(" ", PostfixWords(e)) + ")";
      IsExpressionMarker(s) && Tokens(s, consts) == Postfix(e)
  {
    PostfixText(e);
    ClassifyPostfix(e, consts);
  }

  /** `$(w1 w2 ... wn)` is an expression string whose words, once the
      wrapper is stripped, are the postfix words again. */
  lemma PostfixText(e: Expr)
    requires IntTree(e)
    ensures var s := "$(" + Join(" ", PostfixWords(e)) + ")";
      IsExpressionMarker(s) && Words(Trim(s, IsWrapperChar)) == PostfixWords(e)
  {
    var ws := PostfixWords(e);
    var j := Join(" ", ws);
    PostfixWordsShape(e);
    JoinEnds(" ", ws);
    Marked(j);
    ExpressionWords("$(" + j + ")", j, ws);
  }

  /** `format_value` on the text of a postfix expression over integers writes
      `str()` of the value its tree denotes, or fails with the error the tree
      evaluation meets (a `mod` by zero), provided no constant is named after
      an operator. */
  lemma FormatPostfix(e: Expr, indent: nat, consts: Table)
    requires ValidTable(consts) && IntTree(e)
    requires forall op: Op :: OpName(op) !in consts
    ensures var r := FormatValue(Str("$(" + Join(" ", PostfixWords(e)) + ")"), indent, consts);
      && (EvalTree(e).Success? ==> EvalTree(e).value.Int? && r == Success(IntToString(EvalTree(e).value.n)))
      && (EvalTree(e).Failure? ==> r == Failure(EvalTree(e).error))
  {
    var s := "$(" + Join(" ", PostfixWords(e)) + ")";
    PostfixTokens(e, consts);
    EvaluatePostfix(s, consts, e);
    IntTreeValue(e);
    FormatExpression(s, indent, consts);
  }
}
