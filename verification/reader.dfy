/** A reader for the value syntax the serialiser writes. It is the inverse
    that pins down what `format_value` produces: reading back the text of a
    plain value yields that value again. */
module Reader {
  import opened Wrappers
  import opened Text
  import opened Numbers
  import opened Values
  import opened Names
  import opened Constants
  import opened Evaluator
  import opened Formatter

  /** The rest of `s` after `prefix`, if `s` starts with it. */
  function Consume(s: string, prefix: string): (r: Option<string>)
    ensures r.Some? <==> StartsWith(s, prefix)
    ensures r.Some? ==> |r.value| == |s| - |prefix| && r.value == s[|prefix|..]
  {
    if StartsWith(s, prefix) then Some(s[|prefix|..]) else None
  }

  lemma ConsumePrefix(p: string, q: string)
    ensures Consume(p + q, p) == Some(q)
  {
    assert (p + q)[..|p|] == p;
    assert (p + q)[|p|..] == q;
  }

  /** The length of the longest prefix of `s` whose characters satisfy `ok`. */
  function RunLength(s: string, ok: char -> bool): (n: nat)
    ensures n <= |s|
    ensures forall i :: 0 <= i < n ==> ok(s[i])
    ensures n < |s| ==> !ok(s[n])
  {
    if s != [] && ok(s[0]) then 1 + RunLength(s[1..], ok) else 0
  }

  lemma {:induction false} RunLengthOf(t: string, rest: string, ok: char -> bool)
    requires forall i :: 0 <= i < |t| ==> ok(t[i])
    requires rest == [] || !ok(rest[0])
    ensures RunLength(t + rest, ok) == |t|
  {
    if t != [] {
      assert (t + rest)[1..] == t[1..] + rest;
      RunLengthOf(t[1..], rest, ok);
    } else {
      assert t + rest == rest;
    }
  }

  /** Characters of an unquoted scalar: anything but the separators and
      brackets of the syntax. */
  predicate IsBareChar(c: char) {
    c !in ",; \n'{}"
  }

  predicate IsNotQuote(c: char) {
    c != '\''
  }

  /** The value an unquoted word denotes. */
  function BareValue(t: string): Value {
    if t == "True" then Bool(true)
    else if t == "False" then Bool(false)
    else if IsIntLiteral(t) then Int(ParseInt(t))
    else Flt(t)
  }

  /** The closing line of a mapping written at `indent`. */
  function Closing(indent: nat): string {
    Spaces(ClosingIndent(indent)) + "}"
  }

  /** Reads one value from the front of `s`, returning it with the unread
      rest: a quoted string, a one-line list `{ a, b }`, a block mapping, or
      an unquoted word. */
  function ReadValue(s: string, indent: nat): (r: Option<(Value, string)>)
    ensures r.Some? ==> |r.value.1| < |s|
    decreases |s|, 0
  {
    if s == [] then None
    else if s[0] == '\'' then
      var n := RunLength(s[1..], IsNotQuote);
      if n == |s| - 1 then None else Some((Str(s[1..n + 1]), s[n + 2..]))
    else if StartsWith(s, "{ ") then ReadList(s[2..], indent)
    else if StartsWith(s, "{\n") then ReadMap(s[2..], indent)
    else
      var n := RunLength(s, IsBareChar);
      if n == 0 then None else Some((BareValue(s[..n]), s[n..]))
  }

  /** The rest of a list after its opening `{ `. */
  function ReadList(s: string, indent: nat): (r: Option<(Value, string)>)
    ensures r.Some? ==> |r.value.1| < |s|
    decreases |s|, 2
  {
    if StartsWith(s, " }") then Some((List([]), s[2..]))
    else
      var p :- ReadItems(s, indent);
      Some((List(p.0), p.1))
  }

  /** One or more items separated by `, ` and closed by ` }`. */
  function ReadItems(s: string, indent: nat): (r: Option<(seq<Value>, string)>)
    ensures r.Some? ==> |r.value.1| < |s|
    decreases |s|, 1
  {
    var p :- ReadValue(s, indent);
    if StartsWith(p.1, ", ") then
      var more :- ReadItems(p.1[2..], indent);
      Some(([p.0] + more.0, more.1))
    else if StartsWith(p.1, " }") then Some(([p.0], p.1[2..]))
    else None
  }

  /** The rest of a mapping after its opening `{` and line break. */
  function ReadMap(s: string, indent: nat): (r: Option<(Value, string)>)
    ensures r.Some? ==> |r.value.1| < |s|
    decreases |s|, 3
  {
    if StartsWith(s, "\n") then
      var rest :- Consume(s[1..], Closing(indent));
      Some((Map([]), rest))
    else
      var p :- ReadEntries(s, indent);
      Some((Map(p.0), p.1))
  }

  /** One `key : value,` line and its line break: the indent, then the key
      and value. */
  function ReadEntryLine(s: string, indent: nat): (r: Option<((string, Value), string)>)
    ensures r.Some? ==> |r.value.1| < |s|
    decreases |s|, 1
  {
    var s1 :- Consume(s, Spaces(indent));
    ReadKeyAndValue(s1, indent)
  }

  /** A key, ` : `, a value one level deeper, then `,` and a new line. */
  function ReadKeyAndValue(s: string, indent: nat): (r: Option<((string, Value), string)>)
    ensures r.Some? ==> |r.value.1| < |s|
    decreases |s|, 0
  {
    var n := RunLength(s, IsIdentChar);
    if n == 0 then None
    else
      var s2 :- Consume(s[n..], " : ");
      var p :- ReadValue(s2, indent + 4);
      var s3 :- Consume(p.1, ",\n");
      Some(((s[..n], p.0), s3))
  }

  /** One or more entry lines, closed by the closing line. */
  function ReadEntries(s: string, indent: nat): (r: Option<(seq<(string, Value)>, string)>)
    ensures r.Some? ==> |r.value.1| < |s|
    decreases |s|, 2
  {
    var p :- ReadEntryLine(s, indent);
    if StartsWith(p.1, Closing(indent)) then Some(([p.0], p.1[|Closing(indent)|..]))
    else
      var more :- ReadEntries(p.1, indent);
      Some(([p.0] + more.0, more.1))
  }
}

/** The round trip: formatting a plain value and reading the text back gives
    the value. */
module ReaderFacts {
  import opened Wrappers
  import opened Text
  import opened Numbers
  import opened Values
  import opened Names
  import opened Constants
  import opened Evaluator
  import opened Formatter
  import opened Reader

  /** Float text that reads back as a float: a non-empty unquoted word that
      is neither a boolean nor an integer literal. Python's `str()` of a float
      always has this shape (`1.5`, `1e+20`, `inf`, `nan`). */
  predicate PlainFloatText(t: string) {
    t != [] && (forall i :: 0 <= i < |t| ==> IsBareChar(t[i]))
    && t != "True" && t != "False" && !IsIntLiteral(t)
  }

  /** The values the serialiser writes without loss: no embedded expression
      (those are replaced by their result), no single quote inside a string
      (quotes are not escaped), every mapping key well-formed, and no
      unsupported node. */
  predicate Plain(v: Value) {
    match v
    case Str(s) => !IsExpressionMarker(s) && '\'' !in s
    case Int(_) => true
    case Bool(_) => true
    case Flt(t) => PlainFloatText(t)
    case List(items) => forall i :: 0 <= i < |items| ==> Plain(items[i])
    case Map(es) => forall i :: 0 <= i < |es| ==> ValidName(es[i].0) && Plain(es[i].1)
    case Unsupported(_) => false
  }

  /** What may follow a value in the output: the end, or a separator. */
  predicate Follows(rest: string) {
    rest == [] || !IsBareChar(rest[0])
  }

  lemma IntTextIsBare(n: int)
    ensures forall i :: 0 <= i < |IntToString(n)| ==> IsBareChar(IntToString(n)[i])
    ensures IntToString(n) != "True" && IntToString(n) != "False"
  {
    var t := IntToString(n);
    var u := Unsigned(t);
    assert forall i :: 0 <= i < |u| ==> IsDigit(u[i]);
    forall i | 0 <= i < |t| ensures IsBareChar(t[i]) {
      if t[0] == '-' {
        if i > 0 { assert t[i] == u[i - 1]; }
      } else {
        assert t[i] == u[i];
      }
    }
    if t[0] != '-' { assert IsDigit(u[0]); }
  }

  lemma ConcatAssoc(a: string, b: string, c: string)
    ensures a + b + c == a + (b + c)
  {
  }

  /** A quoted string without inner quotes reads back as that string. */
  lemma ReadQuoted(s: string, rest: string, indent: nat)
    requires '\'' !in s
    ensures ReadValue("'" + s + "'" + rest, indent) == Some((Str(s), rest))
  {
    var all := "'" + s + "'" + rest;
    assert all[0] == '\'';
    assert all[1..] == s + ("'" + rest);
    RunLengthOf(s, "'" + rest, IsNotQuote);
    assert all[1..|s| + 1] == s;
    assert all[|s| + 2..] == rest;
  }

  /** An unquoted word followed by a separator reads back as the value it
      denotes. */
  lemma ReadBare(t: string, rest: string, indent: nat)
    requires t != [] && forall i :: 0 <= i < |t| ==> IsBareChar(t[i])
    requires Follows(rest)
    ensures ReadValue(t + rest, indent) == Some((BareValue(t), rest))
  {
    var all := t + rest;
    assert all[0] == t[0] && IsBareChar(t[0]);
    assert !StartsWith(all, "{ ") && !StartsWith(all, "{\n");
    RunLengthOf(t, rest, IsBareChar);
    assert all[..|t|] == t && all[|t|..] == rest;
  }

  lemma ReadOpensList(body: string, indent: nat)
    ensures ReadValue("{ " + body, indent) == ReadList(body, indent)
  {
    var all := "{ " + body;
    assert StartsWith(all, "{ ") && all[2..] == body;
  }

  lemma ReadOpensMap(body: string, indent: nat)
    ensures ReadValue("{\n" + body, indent) == ReadMap(body, indent)
  {
    var all := "{\n" + body;
    assert !StartsWith(all, "{ ");
    assert StartsWith(all, "{\n") && all[2..] == body;
  }

  /** Formatting a plain value succeeds, its text starts with a character
      other than a space, and reading that text back, whatever separator
      follows, returns the value and leaves the separator unread. */
  lemma {:induction false} ReadFormatted(v: Value, indent: nat, consts: Table, rest: string)
    requires ValidTable(consts) && Plain(v) && Follows(rest)
    ensures FormatValue(v, indent, consts).Success?
    ensures FormatValue(v, indent, consts).value != []
    ensures FormatValue(v, indent, consts).value[0] != ' '
    ensures ReadValue(FormatValue(v, indent, consts).value + rest, indent) == Some((v, rest))
    decreases v, 1
  {
    match v
    case Str(s) =>
      assert FormatValue(v, indent, consts) == Success("'" + s + "'");
      ReadQuoted(s, rest, indent);
    case Int(n) =>
      var t := IntToString(n);
      assert FormatValue(v, indent, consts) == Success(t);
      IntTextIsBare(n);
      ReadBare(t, rest, indent);
    case Bool(b) =>
      var t := if b then "True" else "False";
      assert FormatValue(v, indent, consts) == Success(t);
      ReadBare(t, rest, indent);
    case Flt(t) =>
      assert FormatValue(v, indent, consts) == Success(t);
      ReadBare(t, rest, indent);
    case List(items) =>
      ReadFormattedList(items, indent, consts, rest);
    case Map(es) =>
      ReadFormattedMap(es, indent, consts, rest);
  }

  lemma ReadEmptyList(indent: nat, rest: string)
    ensures ReadValue("{ " + "" + " }" + rest, indent) == Some((List([]), rest))
  {
    assert "{ " + "" == "{ ";
    ConcatAssoc("{ ", " }", rest);
    ReadOpensList(" }" + rest, indent);
    assert StartsWith(" }" + rest, " }");
    assert (" }" + rest)[2..] == rest;
  }

  lemma ReadNonEmptyList(j: string, items: seq<Value>, indent: nat, rest: string)
    requires j != [] && j[0] != ' '
    requires ReadItems(j + " }" + rest, indent) == Some((items, rest))
    ensures ReadValue("{ " + j + " }" + rest, indent) == Some((List(items), rest))
  {
    var body := j + " }" + rest;
    ConcatAssoc("{ " + j, " }", rest);
    ConcatAssoc("{ ", j, " }" + rest);
    ConcatAssoc(j, " }", rest);
    ReadOpensList(body, indent);
    assert body[0] == j[0];
    assert !StartsWith(body, " }");
  }

  lemma {:induction false} ReadFormattedList(items: seq<Value>, indent: nat, consts: Table, rest: string)
    requires ValidTable(consts)
    requires forall i :: 0 <= i < |items| ==> Plain(items[i])
    ensures FormatValue(List(items), indent, consts).Success?
    ensures FormatValue(List(items), indent, consts).value != []
    ensures FormatValue(List(items), indent, consts).value[0] == '{'
    ensures ReadValue(FormatValue(List(items), indent, consts).value + rest, indent) == Some((List(items), rest))
    decreases items, 1
  {
    if items == [] {
      assert FormatItems(items, indent, consts) == Success([]);
      assert Join(", ", []) == "";
      assert FormatValue(List(items), indent, consts) == Success("{ " + "" + " }");
      ReadEmptyList(indent, rest);
    } else {
      ReadFormattedItems(items, indent, consts, rest);
      var parts := FormatItems(items, indent, consts).value;
      var j := Join(", ", parts);
      assert FormatValue(List(items), indent, consts) == Success("{ " + j + " }");
      JoinStartsWithFirst(", ", parts);
      assert j[0] == parts[0][0];
      ReadNonEmptyList(j, items, indent, rest);
    }
  }

  lemma ReadEmptyMap(indent: nat, rest: string)
    ensures ReadValue("{\n" + "" + "\n" + Spaces(ClosingIndent(indent)) + "}" + rest, indent) == Some((Map([]), rest))
  {
    var close := Closing(indent);
    var sp := Spaces(ClosingIndent(indent));
    var body := "\n" + (close + rest);
    assert "{\n" + "" == "{\n";
    ConcatAssoc("{\n" + "\n" + sp, "}", rest);
    ConcatAssoc("{\n" + "\n", sp, "}" + rest);
    ConcatAssoc(sp, "}", rest);
    ConcatAssoc("{\n", "\n", close + rest);
    ReadOpensMap(body, indent);
    assert StartsWith(body, "\n") && body[1..] == close + rest;
    ConsumePrefix(close, rest);
  }

  lemma ReadNonEmptyMap(j: string, es: seq<(string, Value)>, indent: nat, rest: string)
    requires j != [] && j[0] != '\n'
    requires ReadEntries(j + "\n" + Closing(indent) + rest, indent) == Some((es, rest))
    ensures ReadValue("{\n" + j + "\n" + Spaces(ClosingIndent(indent)) + "}" + rest, indent) == Some((Map(es), rest))
  {
    var body := j + "\n" + Closing(indent) + rest;
    MapText(j, Spaces(ClosingIndent(indent)), rest);
    ReadOpensMap(body, indent);
    assert body[0] == j[0];
  }

  lemma MapText(j: string, sp: string, rest: string)
    ensures "{\n" + j + "\n" + sp + "}" + rest == "{\n" + (j + "\n" + (sp + "}") + rest)
  {
    var close := sp + "}";
    ConcatAssoc("{\n" + j + "\n" + sp, "}", rest);
    ConcatAssoc("{\n" + j + "\n", sp, "}" + rest);
    ConcatAssoc(sp, "}", rest);
    ConcatAssoc("{\n" + j, "\n", close + rest);
    ConcatAssoc("{\n", j, "\n" + (close + rest));
    ConcatAssoc(j, "\n", close + rest);
    ConcatAssoc(j + "\n", close, rest);
  }

  lemma {:induction false} ReadFormattedMap(es: seq<(string, Value)>, indent: nat, consts: Table, rest: string)
    requires ValidTable(consts)
    requires forall i :: 0 <= i < |es| ==> ValidName(es[i].0) && Plain(es[i].1)
    ensures FormatValue(Map(es), indent, consts).Success?
    ensures FormatValue(Map(es), indent, consts).value != []
    ensures FormatValue(Map(es), indent, consts).value[0] == '{'
    ensures ReadValue(FormatValue(Map(es), indent, consts).value + rest, indent) == Some((Map(es), rest))
    decreases es, 2
  {
    var sp := Spaces(ClosingIndent(indent));
    if es == [] {
      assert FormatEntries(es, indent, consts) == Success([]);
      assert FormatValue(Map(es), indent, consts) == Success("{\n" + "" + "\n" + sp + "}");
      ReadEmptyMap(indent, rest);
    } else {
      ReadFormattedEntries(es, indent, consts, rest);
      var lines := FormatEntries(es, indent, consts).value;
      var j := Join("\n", lines);
      assert FormatValue(Map(es), indent, consts) == Success("{\n" + j + "\n" + sp + "}");
      EntryLineShape(es[0], indent, consts);
      JoinStartsWithFirst("\n", lines);
      assert j[0] == lines[0][0];
      ReadNonEmptyMap(j, es, indent, rest);
    }
  }

  /** An entry line is the indent, the key, ` : `, the value and a comma. */
  lemma EntryLineShape(e: (string, Value), indent: nat, consts: Table)
    requires ValidTable(consts)
    requires FormatEntry(e, indent, consts).Success?
    ensures var line := FormatEntry(e, indent, consts).value;
      var value := FormatValue(e.1, indent + 4, consts).value;
      ValidName(e.0) && line == Spaces(indent) + e.0 + " : " + value + ","
      && |line| > indent && line[indent] == e.0[0]
      && (indent > 0 ==> line[0] == ' ') && (indent == 0 ==> line[0] == e.0[0])
  {
  }

  lemma JoinStartsWithFirst(sep: string, parts: seq<string>)
    requires parts != []
    ensures |Join(sep, parts)| >= |parts[0]|
    ensures Join(sep, parts)[..|parts[0]|] == parts[0]
  {
  }

  /** The items of a list, read after a value and its `, ` separator. */
  lemma ReadItemsStep(text: string, v: Value, tail: string, indent: nat)
    requires ReadValue(text + (", " + tail), indent) == Some((v, ", " + tail))
    ensures ReadItems(text + (", " + tail), indent) ==
      match ReadItems(tail, indent)
      case Some(more) => Some(([v] + more.0, more.1))
      case None => None
  {
    assert StartsWith(", " + tail, ", ") && (", " + tail)[2..] == tail;
  }

  lemma ReadItemsLast(text: string, v: Value, rest: string, indent: nat)
    requires ReadValue(text + (" }" + rest), indent) == Some((v, " }" + rest))
    ensures ReadItems(text + (" }" + rest), indent) == Some(([v], rest))
  {
    assert !StartsWith(" }" + rest, ", ");
    assert StartsWith(" }" + rest, " }") && (" }" + rest)[2..] == rest;
  }

  lemma {:induction false} ReadFormattedItems(items: seq<Value>, indent: nat, consts: Table, rest: string)
    requires ValidTable(consts) && items != []
    requires forall i :: 0 <= i < |items| ==> Plain(items[i])
    ensures FormatItems(items, indent, consts).Success?
    ensures var parts := FormatItems(items, indent, consts).value;
      parts[0] != [] && parts[0][0] != ' '
      && ReadItems(Join(", ", parts) + " }" + rest, indent) == Some((items, rest))
    decreases items, 0
  {
    var tail := items[1..];
    assert forall i :: 0 <= i < |tail| ==> tail[i] == items[i + 1];
    assert items == [items[0]] + tail;
    if tail == [] {
      ReadFormatted(items[0], indent, consts, " }" + rest);
      var first := FormatValue(items[0], indent, consts).value;
      assert FormatItems(tail, indent, consts) == Success([]);
      FormatItemsCons(items, indent, consts);
      assert [first] + [] == [first];
      assert Join(", ", [first]) == first;
      ConcatAssoc(first, " }", rest);
      ReadItemsLast(first, items[0], rest, indent);
      assert FormatItems(items, indent, consts).value == [first];
      assert Join(", ", [first]) + " }" + rest == first + (" }" + rest);
      assert ReadItems(first + (" }" + rest), indent) == Some(([items[0]], rest));
      assert [items[0]] == items;
    } else {
      ReadFormattedItems(tail, indent, consts, rest);
      var more := FormatItems(tail, indent, consts).value;
      var after := Join(", ", more) + " }" + rest;
      ReadFormatted(items[0], indent, consts, ", " + after);
      var first := FormatValue(items[0], indent, consts).value;
      FormatItemsCons(items, indent, consts);
      JoinCons(", ", first, more);
      var j := Join(", ", more);
      ConcatAssoc(first + ", " + j, " }", rest);
      ConcatAssoc(first + ", ", j, " }" + rest);
      ConcatAssoc(first, ", ", j + (" }" + rest));
      ConcatAssoc(j, " }", rest);
      ReadItemsStep(first, items[0], after, indent);
    }
  }

  lemma {:induction false} EntryValueRoundTrip(e: (string, Value), indent: nat, consts: Table, rest: string)
    requires ValidTable(consts) && ValidName(e.0) && Plain(e.1) && Follows(rest)
    ensures FormatEntry(e, indent, consts).Success?
    ensures ReadValue(FormatValue(e.1, indent + 4, consts).value + rest, indent + 4) == Some((e.1, rest))
    decreases e, 0
  {
    ReadFormatted(e.1, indent + 4, consts, rest);
  }

  /** A well-formed key followed by text that starts with a space is read
      as exactly that key. */
  lemma KeyRun(key: string, tail: string)
    requires ValidName(key) && tail != [] && tail[0] == ' '
    ensures RunLength(key + tail, IsIdentChar) == |key|
    ensures (key + tail)[..|key|] == key && (key + tail)[|key|..] == tail
  {
    RunLengthOf(key, tail, IsIdentChar);
  }

  lemma ReadKeyAndValueOf(key: string, v: Value, value: string, after: string, indent: nat)
    requires ValidName(key)
    requires ReadValue(value + (",\n" + after), indent + 4) == Some((v, ",\n" + after))
    ensures ReadKeyAndValue(key + (" : " + (value + (",\n" + after))), indent) == Some(((key, v), after))
  {
    var tail := " : " + (value + (",\n" + after));
    var s1 := key + tail;
    KeyRun(key, tail);
    ConsumePrefix(" : ", value + (",\n" + after));
    assert Consume(s1[|key|..], " : ") == Some(value + (",\n" + after));
    ConsumePrefix(",\n", after);
    assert Consume(",\n" + after, ",\n") == Some(after);
  }

  lemma EntryTextShape(key: string, value: string, after: string, indent: nat)
    ensures Spaces(indent) + key + " : " + value + "," + "\n" + after
         == Spaces(indent) + (key + (" : " + (value + (",\n" + after))))
  {
    var sp := Spaces(indent);
    var front := sp + key + " : " + value;
    ConcatAssoc(front + ",", "\n", after);
    ConcatAssoc(front, ",", "\n" + after);
    assert "," + ("\n" + after) == ",\n" + after;
    ConcatAssoc(sp + key + " : ", value, ",\n" + after);
    ConcatAssoc(sp + key, " : ", value + (",\n" + after));
    ConcatAssoc(sp, key, " : " + (value + (",\n" + after)));
  }

  lemma ReadEntryLineIndent(s1: string, indent: nat)
    ensures ReadEntryLine(Spaces(indent) + s1, indent) == ReadKeyAndValue(s1, indent)
  {
    ConsumePrefix(Spaces(indent), s1);
  }

  /** Reading one entry line from its text. */
  lemma ReadEntryLineOf(key: string, v: Value, value: string, after: string, indent: nat)
    requires ValidName(key)
    requires ReadValue(value + (",\n" + after), indent + 4) == Some((v, ",\n" + after))
    ensures ReadEntryLine(Spaces(indent) + key + " : " + value + "," + "\n" + after, indent) == Some(((key, v), after))
  {
    var s1 := key + (" : " + (value + (",\n" + after)));
    EntryTextShape(key, value, after, indent);
    ReadEntryLineIndent(s1, indent);
    ReadKeyAndValueOf(key, v, value, after, indent);
  }

  lemma ReadEntriesStep(s: string, entry: (string, Value), after: string, indent: nat)
    requires ReadEntryLine(s, indent) == Some((entry, after))
    ensures ReadEntries(s, indent) ==
      if StartsWith(after, Closing(indent)) then Some(([entry], after[|Closing(indent)|..]))
      else match ReadEntries(after, indent)
        case Some(more) => Some(([entry] + more.0, more.1))
        case None => None
  {
  }

  lemma JoinCons(sep: string, p: string, ps: seq<string>)
    requires ps != []
    ensures Join(sep, [p] + ps) == p + sep + Join(sep, ps)
  {
    assert ([p] + ps)[1..] == ps;
  }

  lemma FormatItemsCons(items: seq<Value>, indent: nat, consts: Table)
    requires ValidTable(consts) && items != []
    requires FormatValue(items[0], indent, consts).Success?
    requires FormatItems(items[1..], indent, consts).Success?
    ensures FormatItems(items, indent, consts)
      == Success([FormatValue(items[0], indent, consts).value] + FormatItems(items[1..], indent, consts).value)
  {
  }

  lemma FormatEntriesCons(es: seq<(string, Value)>, indent: nat, consts: Table)
    requires ValidTable(consts) && es != []
    requires FormatEntry(es[0], indent, consts).Success?
    requires FormatEntries(es[1..], indent, consts).Success?
    ensures FormatEntries(es, indent, consts)
      == Success([FormatEntry(es[0], indent, consts).value] + FormatEntries(es[1..], indent, consts).value)
  {
  }

  /** The last entry line, followed by the closing line. */
  lemma ReadLastEntry(key: string, v: Value, value: string, rest: string, indent: nat)
    requires ValidName(key)
    requires ReadValue(value + (",\n" + (Closing(indent) + rest)), indent + 4) == Some((v, ",\n" + (Closing(indent) + rest)))
    ensures ReadEntries(Spaces(indent) + key + " : " + value + "," + "\n" + (Closing(indent) + rest), indent)
      == Some(([(key, v)], rest))
  {
    var after := Closing(indent) + rest;
    ReadEntryLineOf(key, v, value, after, indent);
    ReadEntriesStep(Spaces(indent) + key + " : " + value + "," + "\n" + after, (key, v), after, indent);
    ConsumePrefix(Closing(indent), rest);
  }

  /** An entry line followed by further entries. */
  lemma ReadEntryThenMore(key: string, v: Value, value: string, after: string, es: seq<(string, Value)>,
                          rest: string, indent: nat)
    requires ValidName(key)
    requires ReadValue(value + (",\n" + after), indent + 4) == Some((v, ",\n" + after))
    requires !StartsWith(after, Closing(indent))
    requires ReadEntries(after, indent) == Some((es, rest))
    ensures ReadEntries(Spaces(indent) + key + " : " + value + "," + "\n" + after, indent)
      == Some(([(key, v)] + es, rest))
  {
    ReadEntryLineOf(key, v, value, after, indent);
    ReadEntriesStep(Spaces(indent) + key + " : " + value + "," + "\n" + after, (key, v), after, indent);
  }

  lemma {:induction false} ReadFormattedEntries(es: seq<(string, Value)>, indent: nat, consts: Table, rest: string)
    requires ValidTable(consts) && es != []
    requires forall i :: 0 <= i < |es| ==> ValidName(es[i].0) && Plain(es[i].1)
    ensures FormatEntries(es, indent, consts).Success?
    ensures ReadEntries(Join("\n", FormatEntries(es, indent, consts).value) + "\n" + Closing(indent) + rest, indent)
      == Some((es, rest))
    decreases es, 1
  {
    if |es| == 1 {
      ReadFormattedOne(es, indent, consts, rest);
    } else {
      ReadFormattedEntries(es[1..], indent, consts, rest);
      ReadFormattedMore(es, indent, consts, rest);
    }
  }

  lemma ReadFormattedOne(es: seq<(string, Value)>, indent: nat, consts: Table, rest: string)
    requires ValidTable(consts) && |es| == 1
    requires ValidName(es[0].0) && Plain(es[0].1)
    ensures FormatEntries(es, indent, consts).Success?
    ensures ReadEntries(Join("\n", FormatEntries(es, indent, consts).value) + "\n" + Closing(indent) + rest, indent)
      == Some((es, rest))
    decreases es, 0
  {
    var e := es[0];
    var close := Closing(indent);
    assert es == [(e.0, e.1)];
    EntryValueRoundTrip(e, indent, consts, ",\n");
    EntryLineShape(e, indent, consts);
    var value := FormatValue(e.1, indent + 4, consts).value;
    var line := FormatEntry(e, indent, consts).value;
    EntryValueRoundTrip(e, indent, consts, ",\n" + (close + rest));
    assert FormatEntries(es[1..], indent, consts) == Success([]);
    FormatEntriesCons(es, indent, consts);
    assert [line] + [] == [line];
    assert Join("\n", [line]) == line;
    assert FormatEntries(es, indent, consts).value == [line];
    ConcatAssoc(line + "\n", close, rest);
    ReadLastEntry(e.0, e.1, value, rest, indent);
    assert ReadEntries(line + "\n" + (close + rest), indent) == Some(([(e.0, e.1)], rest));
  }

  /** The joined lines of a mapping whose first line is `line`, then the
      closing line: `line`, a line break, and the rest. */
  lemma JoinedThenClosed(line: string, more: seq<string>, close: string, rest: string)
    requires more != []
    ensures Join("\n", [line] + more) + "\n" + close + rest
      == line + "\n" + (Join("\n", more) + "\n" + close + rest)
    ensures Join("\n", more) + "\n" + close + rest == Join("\n", more) + "\n" + (close + rest)
  {
    var j := Join("\n", more);
    JoinCons("\n", line, more);
    ConcatAssoc(line + "\n" + j + "\n", close, rest);
    ConcatAssoc(line + "\n" + j, "\n", close + rest);
    ConcatAssoc(line + "\n", j, "\n" + (close + rest));
    ConcatAssoc(j, "\n", close + rest);
    ConcatAssoc(j + "\n", close, rest);
  }

  lemma ReadFormattedMore(es: seq<(string, Value)>, indent: nat, consts: Table, rest: string)
    requires ValidTable(consts) && |es| >= 2
    requires forall i :: 0 <= i < |es| ==> ValidName(es[i].0) && Plain(es[i].1)
    requires FormatEntries(es[1..], indent, consts).Success?
    requires ReadEntries(Join("\n", FormatEntries(es[1..], indent, consts).value) + "\n" + Closing(indent) + rest, indent)
      == Some((es[1..], rest))
    ensures FormatEntries(es, indent, consts).Success?
    ensures ReadEntries(Join("\n", FormatEntries(es, indent, consts).value) + "\n" + Closing(indent) + rest, indent)
      == Some((es, rest))
    decreases es, 0
  {
    var e := es[0];
    var close := Closing(indent);
    var tail := es[1..];
    assert es == [(e.0, e.1)] + tail;
    EntryValueRoundTrip(e, indent, consts, ",\n");
    EntryLineShape(e, indent, consts);
    var value := FormatValue(e.1, indent + 4, consts).value;
    var line := FormatEntry(e, indent, consts).value;
    var more := FormatEntries(tail, indent, consts).value;
    var j := Join("\n", more);
    var after := j + "\n" + close + rest;
    EntryValueRoundTrip(e, indent, consts, ",\n" + after);
    FormatEntriesCons(es, indent, consts);
    assert FormatEntries(es, indent, consts).value == [line] + more;
    JoinedThenClosed(line, more, close, rest);
    assert tail[0] == es[1] && ValidName(tail[0].0) && Plain(tail[0].1);
    NextEntryIsNotClosing(tail[0], more, close + rest, indent, consts);
    ReadEntryThenMore(e.0, e.1, value, after, tail, rest, indent);
  }

  /** The text after an entry line that another entry follows does not look
      like the closing line: at the closing indent it has a space or the
      first letter of a key, never `}`. */
  lemma NextEntryIsNotClosing(e: (string, Value), more: seq<string>, tail: string, indent: nat, consts: Table)
    requires ValidTable(consts) && more != []
    requires FormatEntry(e, indent, consts) == Success(more[0])
    ensures !StartsWith(Join("\n", more) + "\n" + tail, Closing(indent))
  {
    EntryLineShape(e, indent, consts);
    JoinStartsWithFirst("\n", more);
    var after := Join("\n", more) + "\n" + tail;
    var c := ClosingIndent(indent);
    assert after[c] == more[0][c];
    if c < indent {
      assert more[0][c] == Spaces(indent)[c] == ' ';
    }
    assert Closing(indent)[c] == '}';
  }
}
