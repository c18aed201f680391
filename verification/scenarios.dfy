/** Worked examples: concrete inputs and the exact output the model gives
    for them. */
module Scenarios {
  import opened Wrappers
  import opened Text
  import opened TextFacts
  import opened Numbers
  import opened Values
  import opened Names
  import opened Constants
  import opened Evaluator
  import opened EvaluatorFacts
  import opened Formatter
  import opened FormatterFacts
  import opened Converter

  /** `$(3 4 +)` is 7. */
  lemma EvaluateSum()
    ensures Evaluate("$(3 4 +)", map[]) == Success(Int(7))
  {
    SumTokens();
    EvaluateBinary("$(3 4 +)", map[], Add, Int(3), Int(4));
  }

  lemma SumTokens()
    ensures Tokens("$(3 4 +)", map[]) == [Operand(Int(3)), Operand(Int(4)), Operator(Add)]
  {
    OperatorWord("+", map[], Add);
    ExpressionWords("$(3 4 +)", "3 4 +", ["3", "4", "+"]);
    ThreeTokens("$(3 4 +)", map[], "3", "4", "+");
    IntLiteral("3", 3);
    IntLiteral("4", 4);
  }

  /** A two-operand expression evaluates to its operator applied to the
      operands. */
  lemma EvaluateBinary(expr: string, consts: Table, op: Op, a: Value, b: Value)
    requires Tokens(expr, consts) == [Operand(a), Operand(b), Operator(op)]
    ensures Evaluate(expr, consts) == Apply(op, a, b)
  {
    BinaryTree(op, a, b);
    EvaluatePostfix(expr, consts, Node(op, Leaf(a), Leaf(b)));
  }

  /** The tree `a op b`: its postfix spelling and its value. */
  lemma BinaryTree(op: Op, a: Value, b: Value)
    ensures Postfix(Node(op, Leaf(a), Leaf(b))) == [Operand(a), Operand(b), Operator(op)]
    ensures EvalTree(Node(op, Leaf(a), Leaf(b))) == Apply(op, a, b)
  {
    assert Postfix(Node(op, Leaf(a), Leaf(b))) == [Operand(a)] + [Operand(b)] + [Operator(op)];
  }

  lemma ThreeTokens(expr: string, consts: Table, w0: string, w1: string, w2: string)
    requires Words(Trim(expr, IsWrapperChar)) == [w0, w1, w2]
    ensures Tokens(expr, consts) == [Classify(w0, consts), Classify(w1, consts), Classify(w2, consts)]
  {
  }

  lemma OneToken(expr: string, consts: Table, w: string)
    requires Words(Trim(expr, IsWrapperChar)) == [w]
    ensures Tokens(expr, consts) == [Classify(w, consts)]
  {
  }

  /** An operator's own name, when it is not a constant, reads as that
      operator. */
  lemma OperatorWord(w: string, consts: Table, op: Op)
    requires ValidTable(consts) && w == OpName(op) && w !in consts
    ensures Classify(w, consts) == Operator(op)
  {
    OperatorTokens(op, consts);
  }

  /** A decimal literal of one digit reads as that digit. */
  lemma IntLiteral(t: string, n: nat)
    requires |t| == 1 && IsDigit(t[0]) && n == DigitValue(t[0])
    ensures IsNumericLiteral(t) && '.' !in t && ParseInt(t) == n
  {
    assert t[0] != '-' && t[..|t| - 1] == [];
    assert DigitsValue(t) == 10 * DigitsValue([]) + DigitValue(t[0]);
  }

  /** The table `a = 10, b = 3`. */
  const Sample: Table := map["a" := Int(10), "b" := Int(3)]

  lemma SampleValid()
    ensures Sample.Keys == {"a", "b"} && ValidTable(Sample)
  {
  }

  /** No word of more than one letter names a constant of `Sample`. */
  lemma NotInSample(w: string)
    requires |w| > 1
    ensures w !in Sample
  {
    SampleValid();
    assert w != "a" && w != "b";
  }

  /** With `a = 10` and `b = 3`, `$(a b mod)` is 1. */
  lemma EvaluateMod()
    ensures Evaluate("$(a b mod)", Sample) == Success(Int(1))
  {
    ModTokens();
    EvaluateBinary("$(a b mod)", Sample, Mod, Int(10), Int(3));
    assert FloorMod(10, 3) == 1;
  }

  lemma ModTokens()
    ensures Tokens("$(a b mod)", Sample) == [Operand(Int(10)), Operand(Int(3)), Operator(Mod)]
  {
    var t := Sample;
    SampleValid();
    NotInSample("mod");
    OperatorWord("mod", t, Mod);
    ExpressionWords("$(a b mod)", "a b mod", ["a", "b", "mod"]);
    ThreeTokens("$(a b mod)", t, "a", "b", "mod");
    assert Classify("a", t) == Operand(Int(10));
    assert Classify("b", t) == Operand(Int(3));
  }

  /** With `a = 10` and `b = 3`, `$(a b max)` is 10. */
  lemma EvaluateMax()
    ensures Evaluate("$(a b max)", Sample) == Success(Int(10))
  {
    MaxTokens();
    EvaluateBinary("$(a b max)", Sample, Max, Int(10), Int(3));
  }

  lemma MaxTokens()
    ensures Tokens("$(a b max)", Sample) == [Operand(Int(10)), Operand(Int(3)), Operator(Max)]
  {
    var t := Sample;
    SampleValid();
    NotInSample("max");
    OperatorWord("max", t, Max);
    ExpressionWords("$(a b max)", "a b max", ["a", "b", "max"]);
    ThreeTokens("$(a b max)", t, "a", "b", "max");
    assert Classify("a", t) == Operand(Int(10));
    assert Classify("b", t) == Operand(Int(3));
  }

  /** An operator with too few operands fails. */
  lemma EvaluateUnderflow()
    ensures Evaluate("$(+)", map[]) == Failure(InsufficientOperands(Add))
  {
    OperatorWord("+", map[], Add);
    ExpressionWords("$(+)", "+", ["+"]);
    OneToken("$(+)", map[], "+");
    assert Run([Operator(Add)], []) == Failure(InsufficientOperands(Add));
  }

  /** A nested mapping: entries one level deeper, the list on one line. */
  lemma FormatNested()
    ensures FormatValue(Map([("x", Int(1)), ("y", List([Int(1), Int(2), Int(3)]))]), 4, map[])
         == Success("{\n    x : 1,\n    y : { 1, 2, 3 },\n}")
  {
    NestedEntries();
    NestedText();
  }

  lemma NestedText()
    ensures "{\n" + Join("\n", ["    x : 1,", "    y : { 1, 2, 3 },"]) + "\n" + Spaces(ClosingIndent(4)) + "}"
         == "{\n    x : 1,\n    y : { 1, 2, 3 },\n}"
  {
    var l1, l2 := "    x : 1,", "    y : { 1, 2, 3 },";
    assert Join("\n", [l1, l2]) == l1 + "\n" + l2;
    assert Spaces(ClosingIndent(4)) == "";
    assert "{\n" + (l1 + "\n" + l2) + "\n" + "" + "}" == "{\n    x : 1,\n    y : { 1, 2, 3 },\n}";
  }

  lemma NestedEntries()
    ensures FormatEntries([("x", Int(1)), ("y", List([Int(1), Int(2), Int(3)]))], 4, map[])
         == Success(["    x : 1,", "    y : { 1, 2, 3 },"])
  {
    var es := [("x", Int(1)), ("y", List([Int(1), Int(2), Int(3)]))];
    var l1, l2 := "    x : 1,", "    y : { 1, 2, 3 },";
    EntryLineX();
    EntryLineY();
    EntriesCons(es[1], [], 4, map[], l2, []);
    assert [es[1]] + [] == [es[1]] && [l2] + [] == [l2];
    EntriesCons(es[0], [es[1]], 4, map[], l1, [l2]);
    assert [es[0]] + [es[1]] == es && [l1] + [l2] == [l1, l2];
  }

  lemma ItemsCons(v: Value, rest: seq<Value>, indent: nat, consts: Table, a: string, more: seq<string>)
    requires ValidTable(consts)
    requires FormatValue(v, indent, consts) == Success(a)
    requires FormatItems(rest, indent, consts) == Success(more)
    ensures FormatItems([v] + rest, indent, consts) == Success([a] + more)
  {
    assert ([v] + rest)[1..] == rest;
  }

  lemma EntriesCons(e: (string, Value), rest: seq<(string, Value)>, indent: nat, consts: Table,
                    a: string, more: seq<string>)
    requires ValidTable(consts)
    requires FormatEntry(e, indent, consts) == Success(a)
    requires FormatEntries(rest, indent, consts) == Success(more)
    ensures FormatEntries([e] + rest, indent, consts) == Success([a] + more)
  {
    assert ([e] + rest)[1..] == rest;
  }

  lemma SmallInts()
    ensures IntToString(1) == "1" && IntToString(2) == "2" && IntToString(3) == "3"
  {
  }

  lemma ListLine()
    ensures FormatValue(List([Int(1), Int(2), Int(3)]), 8, map[]) == Success("{ 1, 2, 3 }")
  {
    SmallInts();
    ItemsCons(Int(3), [], 8, map[], "3", []);
    assert [Int(3)] + [] == [Int(3)] && ["3"] + [] == ["3"];
    ItemsCons(Int(2), [Int(3)], 8, map[], "2", ["3"]);
    assert [Int(2)] + [Int(3)] == [Int(2), Int(3)] && ["2"] + ["3"] == ["2", "3"];
    ItemsCons(Int(1), [Int(2), Int(3)], 8, map[], "1", ["2", "3"]);
    assert [Int(1)] + [Int(2), Int(3)] == [Int(1), Int(2), Int(3)] && ["1"] + ["2", "3"] == ["1", "2", "3"];
    assert Join(", ", ["1", "2", "3"]) == "1, 2, 3";
    assert "{ " + "1, 2, 3" + " }" == "{ 1, 2, 3 }";
  }

  /** A word of lower-case letters is a well-formed name. */
  lemma NameText(w: string)
    requires |w| > 0 && forall i :: 0 <= i < |w| ==> 'a' <= w[i] <= 'z'
    ensures ValidateName(w) == Success(w)
  {
    assert IsIdentStart(w[0]);
  }

  lemma EntryLineX()
    ensures FormatEntry(("x", Int(1)), 4, map[]) == Success("    x : 1,")
  {
    SmallInts();
    NameText("x");
    assert FormatValue(Int(1), 8, map[]) == Success("1");
    assert Spaces(4) == "    ";
    assert "    " + "x" + " : " + "1" + "," == "    x : 1,";
  }

  lemma EntryLineY()
    ensures FormatEntry(("y", List([Int(1), Int(2), Int(3)])), 4, map[]) == Success("    y : { 1, 2, 3 },")
  {
    ListLine();
    NameText("y");
    LineY();
  }

  lemma LineY()
    ensures Spaces(4) + "y" + " : " + "{ 1, 2, 3 }" + "," == "    y : { 1, 2, 3 },"
  {
    assert Spaces(4) == "    ";
    assert "    " + "y" + " : " + "{ 1, 2, 3 }" + "," == "    y : { 1, 2, 3 },";
  }

  /** A constant defined in the `define` section is used in a later value. */
  lemma ConvertWithDefine()
    ensures Convert(Document([], [Entry("define", Map([("step", Int(2))]), ""),
                                  Entry("value", Str("$(step step *)"), "")]), map[])
         == Success("(define step 2);\n\nvalue : 4;\n")
  {
    StepConverted();
    StepText();
  }

  lemma StepText()
    ensures Join("\n", ["(define step 2);", "", "value : 4;", ""]) == "(define step 2);\n\nvalue : 4;\n"
  {
    JoinFour(["(define step 2);", "", "value : 4;", ""]);
    assert "(define step 2);" + "\n" + ("" + "\n" + ("value : 4;" + "\n" + "")) == "(define step 2);\n\nvalue : 4;\n";
  }

  /** The lines of the document with the define section `step: 2`. */
  lemma StepConverted()
    ensures ConvertLines(Document([], [Entry("define", Map([("step", Int(2))]), ""),
                                       Entry("value", Str("$(step step *)"), "")]), map[])
         == Success(["(define step 2);", "", "value : 4;", ""])
  {
    var e := Entry("value", Str("$(step step *)"), "");
    var doc := Document([], [Entry("define", Map([("step", Int(2))]), ""), e]);
    StepSplit();
    StepDefined();
    StepBody();
    LinesOf(doc, map[], Steps, ["(define step 2);", ""], ["value : 4;", ""]);
    assert HeaderLines([]) == [];
    FourLines("(define step 2);", "", "value : 4;", "");
  }

  lemma FourLines(a: string, b: string, c: string, d: string)
    ensures [] + [a, b] + [c, d] == [a, b, c, d]
  {
  }

  /** The lines of a document from its three parts. */
  lemma LinesOf(doc: Document, consts: Table, t: Table, defines: seq<string>, body: seq<string>)
    requires ValidTable(consts) && ValidTable(t)
    requires DefineBlock(DefineValue(doc.entries), consts) == Success((t, defines))
    requires BodyLines(Body(doc.entries), t) == Success(body)
    ensures ConvertLines(doc, consts) == Success(HeaderLines(doc.topComments) + defines + body)
  {
  }

  lemma StepSplit()
    ensures DefineValue([Entry("define", Map([("step", Int(2))]), ""), Entry("value", Str("$(step step *)"), "")])
         == Some(Map([("step", Int(2))]))
    ensures Body([Entry("define", Map([("step", Int(2))]), ""), Entry("value", Str("$(step step *)"), "")])
         == [Entry("value", Str("$(step step *)"), "")]
  {
    var e := Entry("value", Str("$(step step *)"), "");
    var es := [Entry("define", Map([("step", Int(2))]), ""), e];
    assert es[1..] == [e] && [e][1..] == [];
    assert Body([e]) == [e] + Body([]);
  }

  /** The table `step = 2`. */
  const Steps: Table := map["step" := Int(2)]

  lemma StepsValid()
    ensures ValidTable(Steps)
  {
    NameText("step");
  }

  /** The define section `step: 2` gives the table `step = 2` and one line. */
  lemma StepDefined()
    ensures DefineBlock(Some(Map([("step", Int(2))])), map[]) == Success((Steps, ["(define step 2);", ""]))
  {
    StepTable();
    StepDefineLine();
  }

  lemma StepTable()
    ensures ProcessDefines([("step", Int(2))], map[]) == Success(Steps)
  {
    var defs := [("step", Int(2))];
    NameText("step");
    assert defs[..0] == [];
    assert ProcessDefines([], map[]) == Success(map[]);
    assert map[]["step" := Int(2)] == Steps;
  }

  lemma StepDefineLine()
    ensures DefineLines([("step", Int(2))]) + [""] == ["(define step 2);", ""]
  {
    SmallInts();
    assert "(define " + "step" + " " + "2" + ");" == "(define step 2);";
    assert DefineLines([("step", Int(2))]) == ["(define step 2);"];
  }

  /** With `step = 2`, the body `value: $(step step *)` is written `value : 4;`. */
  lemma StepBody()
    ensures ValidTable(Steps)
    ensures BodyLines([Entry("value", Str("$(step step *)"), "")], Steps) == Success(["value : 4;", ""])
  {
    StepUsed();
    OneEntry(Entry("value", Str("$(step step *)"), ""), Steps);
  }

  /** A body of one entry is that entry's lines. */
  lemma OneEntry(e: Entry, t: Table)
    requires ValidTable(t) && EntryLines(e, t).Success?
    ensures BodyLines([e], t) == EntryLines(e, t)
  {
    assert [e][1..] == [];
    assert EntryLines(e, t).value + [] == EntryLines(e, t).value;
  }

  lemma StepUsed()
    ensures ValidTable(Steps)
    ensures EntryLines(Entry("value", Str("$(step step *)"), ""), Steps) == Success(["value : 4;", ""])
  {
    StepFormatted();
    ValueName();
    assert CommentLines("") == [];
    ValueLine();
  }

  lemma ValueLine()
    ensures [] + ["value" + " : " + "4" + ";", ""] == ["value : 4;", ""]
  {
    assert "value" + " : " + "4" + ";" == "value : 4;";
  }

  lemma ValueName()
    ensures ValidateName("value") == Success("value")
  {
    NameText("value");
  }

  lemma StepFormatted()
    ensures ValidTable(Steps)
    ensures FormatValue(Str("$(step step *)"), TopIndent, Steps) == Success("4")
  {
    StepsValid();
    StepSquared();
    StepMarker();
    FormatExpression("$(step step *)", TopIndent, Steps);
    FourText();
  }

  lemma StepMarker()
    ensures IsExpressionMarker("$(step step *)")
  {
    assert "$(step step *)"[..2] == "$(";
  }

  lemma FourText()
    ensures IntToString(4) == "4"
  {
  }

  /** With `step = 2`, `$(step step *)` is 4. */
  lemma StepSquared()
    ensures Evaluate("$(step step *)", Steps) == Success(Int(4))
  {
    var t := Steps;
    StepsValid();
    OperatorTokens(Mul, t);
    ExpressionWords("$(step step *)", "step step *", ["step", "step", "*"]);
    ThreeTokens("$(step step *)", t, "step", "step", "*");
    assert Classify("step", t) == Operand(Int(2));
    EvaluateBinary("$(step step *)", t, Mul, Int(2), Int(2));
    TwoTimesTwo();
  }

  lemma TwoTimesTwo()
    ensures Apply(Mul, Int(2), Int(2)) == Success(Int(4))
  {
  }

  /** Four lines joined by line breaks. */
  lemma JoinFour(ls: seq<string>)
    requires |ls| == 4
    ensures Join("\n", ls) == ls[0] + "\n" + (ls[1] + "\n" + (ls[2] + "\n" + ls[3]))
  {
    assert Join("\n", ls[3..]) == ls[3];
    assert ls[2..][1..] == ls[3..] && ls[1..][1..] == ls[2..];
    assert Join("\n", ls[2..]) == ls[2] + "\n" + ls[3];
    assert Join("\n", ls[1..]) == ls[1] + "\n" + Join("\n", ls[2..]);
  }

  /** Blank lines are not merged: an empty `define` section after the
      comment block leaves two blank lines in a row. */
  lemma BlankLinesNotCollapsed()
    ensures Convert(Document(["# note"], [Entry("define", Map([]), "")]), map[])
         == Success("=begin\nnote\n=cut\n\n")
  {
    NoteLines();
    NoteText();
  }

  lemma NoteLines()
    ensures ConvertLines(Document(["# note"], [Entry("define", Map([]), "")]), map[])
         == Success(["=begin", "note", "=cut", "", ""])
  {
    var doc := Document(["# note"], [Entry("define", Map([]), "")]);
    NoteHeader();
    EmptyDefine();
    assert Body(doc.entries) == [];
    assert BodyLines([], map[]) == Success([]);
    LinesOf(doc, map[], map[], [""], []);
    assert ["=begin", "note", "=cut", ""] + [""] + [] == ["=begin", "note", "=cut", "", ""];
  }

  lemma NoteHeader()
    ensures HeaderLines(["# note"]) == ["=begin", "note", "=cut", ""]
  {
    CleanNote();
  }

  lemma EmptyDefine()
    ensures DefineValue([Entry("define", Map([]), "")]) == Some(Map([]))
    ensures DefineBlock(Some(Map([])), map[]) == Success((map[], [""]))
  {
    assert ProcessDefines([], map[]) == Success(map[]);
    assert DefineLines([]) + [""] == [""];
  }

  lemma NoteText()
    ensures Join("\n", ["=begin", "note", "=cut", "", ""]) == "=begin\nnote\n=cut\n\n"
  {
    JoinLines(["=begin", "note", "=cut", "", ""]);
    assert "=begin" + "\n" + ("note" + "\n" + ("=cut" + "\n" + ("" + "\n" + ""))) == "=begin\nnote\n=cut\n\n";
  }

  /** `# note` cleans to `note`. */
  lemma CleanNote()
    ensures CleanComment("# note") == "note"
  {
    assert "# note"[1..] == " note" && " note"[1..] == "note";
    assert DropMarks("note") == "note";
    assert DropLeadingSpace("note") == "note";
    assert DropTrailingSpace("note") == "note";
  }

  /** Five lines joined by line breaks. */
  lemma JoinLines(ls: seq<string>)
    requires |ls| == 5
    ensures Join("\n", ls) == ls[0] + "\n" + (ls[1] + "\n" + (ls[2] + "\n" + (ls[3] + "\n" + ls[4])))
  {
    assert Join("\n", ls[4..]) == ls[4];
    assert ls[3..][1..] == ls[4..] && ls[2..][1..] == ls[3..] && ls[1..][1..] == ls[2..];
    assert Join("\n", ls[3..]) == ls[3] + "\n" + ls[4];
    assert Join("\n", ls[2..]) == ls[2] + "\n" + Join("\n", ls[3..]);
    assert Join("\n", ls[1..]) == ls[1] + "\n" + Join("\n", ls[2..]);
  }
}
