/** `convert_to_custom_language`: a loaded document to the text of the
    configuration language. The top comment block becomes a `=begin`/`=cut`
    block, the `define` section becomes `(define ...)` lines and fills the
    constant table, and every other top-level entry becomes a `key : value;`
    line, preceded by its comment and followed by a blank line. */
module Converter {
  import opened Wrappers
  import opened Text
  import opened Values
  import opened Names
  import opened Constants
  import opened Formatter

  /** A top-level key, its value and the text of the comment attached after
      the key (empty when there is none, which Python also treats as no
      comment). */
  datatype Entry = Entry(key: string, value: Value, comment: string)

  /** A loaded document: the comment lines above the first key, then the
      top-level entries in document order. */
  datatype Document = Document(topComments: seq<string>, entries: seq<Entry>)

  /** The key of the constants section. */
  const DefineKey := "define"

  /** The indent the top-level values are formatted with. */
  const TopIndent: nat := 4

  /** The characters `lstrip("# ")` removes. */
  predicate IsCommentMark(c: char) {
    c == '#' || c == ' '
  }

  /** A line that does not start with whitespace (or is empty). */
  predicate Printable(line: string) {
    line == [] || !IsSpace(line[0])
  }

  /** `s.lstrip("# ")` */
  function DropMarks(s: string): string {
    if s != [] && IsCommentMark(s[0]) then DropMarks(s[1..]) else s
  }

  /** `s.lstrip()` */
  function DropLeadingSpace(s: string): string {
    if s != [] && IsSpace(s[0]) then DropLeadingSpace(s[1..]) else s
  }

  /** `s.rstrip()` */
  function DropTrailingSpace(s: string): string {
    if s != [] && IsSpace(s[|s| - 1]) then DropTrailingSpace(s[..|s| - 1]) else s
  }

  /** `comment.lstrip("# ").strip()`: the comment text without its leading
      marks and without surrounding whitespace (its properties are stated by
      `CleanCommentIsTrim`, `CleanCommentFacts` and `CleanCommentEmpty`). */
  function CleanComment(raw: string): string {
    DropTrailingSpace(DropLeadingSpace(DropMarks(raw)))
  }

  lemma {:induction false} DropMarksIsTrimLeft(s: string)
    ensures DropMarks(s) == TrimLeft(s, IsCommentMark)
  {
    if s != [] && IsCommentMark(s[0]) {
      DropMarksIsTrimLeft(s[1..]);
    }
  }

  lemma {:induction false} DropLeadingSpaceIsTrimLeft(s: string)
    ensures DropLeadingSpace(s) == TrimLeft(s, IsSpace)
  {
    if s != [] && IsSpace(s[0]) {
      DropLeadingSpaceIsTrimLeft(s[1..]);
    }
  }

  lemma {:induction false} DropTrailingSpaceIsTrimRight(s: string)
    ensures DropTrailingSpace(s) == TrimRight(s, IsSpace)
  {
    if s != [] && IsSpace(s[|s| - 1]) {
      DropTrailingSpaceIsTrimRight(s[..|s| - 1]);
    }
  }

  /** The cleaned comment is the generic strip of the text after the marks. */
  lemma CleanCommentIsTrim(raw: string)
    ensures CleanComment(raw) == Trim(TrimLeft(raw, IsCommentMark), IsSpace)
  {
    var left := TrimLeft(raw, IsCommentMark);
    DropMarksIsTrimLeft(raw);
    DropLeadingSpaceIsTrimLeft(left);
    DropTrailingSpaceIsTrimRight(TrimLeft(left, IsSpace));
  }

  lemma {:induction false} DropMarksFacts(s: string)
    ensures var r := DropMarks(s);
      |r| <= |s| && r == s[|s| - |r|..] && (r == [] || !IsCommentMark(r[0]))
      && forall i :: 0 <= i < |s| - |r| ==> IsCommentMark(s[i])
  {
    if s != [] && IsCommentMark(s[0]) {
      DropMarksFacts(s[1..]);
      var r := DropMarks(s[1..]);
      assert forall i :: 1 <= i < |s| - |r| ==> s[i] == s[1..][i - 1];
      assert s[1..][|s| - 1 - |r|..] == s[|s| - |r|..];
    }
  }

  lemma {:induction false} DropLeadingSpaceFacts(s: string)
    ensures var r := DropLeadingSpace(s);
      |r| <= |s| && r == s[|s| - |r|..] && (r == [] || !IsSpace(r[0]))
      && forall i :: 0 <= i < |s| - |r| ==> IsSpace(s[i])
  {
    if s != [] && IsSpace(s[0]) {
      DropLeadingSpaceFacts(s[1..]);
      var r := DropLeadingSpace(s[1..]);
      assert forall i :: 1 <= i < |s| - |r| ==> s[i] == s[1..][i - 1];
      assert s[1..][|s| - 1 - |r|..] == s[|s| - |r|..];
    }
  }

  lemma {:induction false} DropTrailingSpaceFacts(s: string)
    ensures var r := DropTrailingSpace(s);
      |r| <= |s| && r == s[..|r|] && (r == [] || !IsSpace(r[|r| - 1]))
      && forall i :: |r| <= i < |s| ==> IsSpace(s[i])
  {
    if s != [] && IsSpace(s[|s| - 1]) {
      DropTrailingSpaceFacts(s[..|s| - 1]);
      var r := DropTrailingSpace(s[..|s| - 1]);
      assert forall i :: |r| <= i < |s| - 1 ==> s[i] == s[..|s| - 1][i];
      assert s[..|s| - 1][..|r|] == s[..|r|];
    }
  }

  /** It is no longer than `raw` and neither starts nor ends with whitespace. */
  lemma CleanCommentFacts(raw: string)
    ensures |CleanComment(raw)| <= |raw|
    ensures CleanComment(raw) != [] ==> !IsSpace(CleanComment(raw)[0]) && !IsSpace(CleanComment(raw)[|CleanComment(raw)| - 1])
  {
    var m := DropMarks(raw);
    var l := DropLeadingSpace(m);
    var r := DropTrailingSpace(l);
    DropMarksFacts(raw);
    DropLeadingSpaceFacts(m);
    DropTrailingSpaceFacts(l);
    if r != [] {
      assert r[0] == l[0];
    }
  }

  /** It is empty only when `raw` holds nothing but marks and whitespace
      (not conversely: in `"# \t#"` the second mark survives the strip). */
  lemma CleanCommentEmpty(raw: string)
    ensures CleanComment(raw) == [] ==> forall i :: 0 <= i < |raw| ==> IsCommentMark(raw[i]) || IsSpace(raw[i])
  {
    var m := DropMarks(raw);
    var l := DropLeadingSpace(m);
    DropMarksFacts(raw);
    DropLeadingSpaceFacts(m);
    DropTrailingSpaceFacts(l);
    if CleanComment(raw) == [] {
      assert l == [];
      var d := |raw| - |m|;
      forall i | 0 <= i < |raw| ensures IsCommentMark(raw[i]) || IsSpace(raw[i]) {
        if i >= d {
          assert raw[i] == m[i - d];
        }
      }
    }
  }

  /** The `=begin`/`=cut` block written for the top comments, or nothing when
      there are none. */
  function HeaderLines(top: seq<string>): (r: seq<string>)
    ensures top == [] ==> r == []
    ensures top != [] ==> |r| == |top| + 3 && r[0] == "=begin" && r[|top| + 1] == "=cut" && r[|top| + 2] == ""
    ensures forall i :: 0 <= i < |top| ==> r[i + 1] == CleanComment(top[i])
  {
    if top == [] then [] else ["=begin"] + CleanAll(top) + ["=cut", ""]
  }

  function CleanAll(top: seq<string>): (r: seq<string>)
    ensures |r| == |top|
    ensures forall i :: 0 <= i < |top| ==> r[i] == CleanComment(top[i])
  {
    if top == [] then [] else [CleanComment(top[0])] + CleanAll(top[1..])
  }

  /** `'define' in data` and `data.pop('define')`: the value of the first
      entry keyed `define`, if there is one. */
  function DefineValue(es: seq<Entry>): (r: Option<Value>)
    ensures r.None? <==> forall i :: 0 <= i < |es| ==> es[i].key != DefineKey
    ensures r.Some? ==> exists i :: (0 <= i < |es| && es[i].key == DefineKey && es[i].value == r.value
      && forall j :: 0 <= j < i ==> es[j].key != DefineKey)
  {
    if es == [] then None
    else if es[0].key == DefineKey then Some(es[0].value)
    else
      var r := DefineValue(es[1..]);
      assert forall i :: 1 <= i < |es| ==> es[i] == es[1..][i - 1];
      r
  }

  /** The entries left in `data` once the `define` entry has been popped, in
      their order. */
  function Body(es: seq<Entry>): (r: seq<Entry>)
    ensures |r| <= |es|
    ensures forall i :: 0 <= i < |r| ==> r[i].key != DefineKey
  {
    if es == [] then []
    else if es[0].key == DefineKey then Body(es[1..])
    else [es[0]] + Body(es[1..])
  }

  /** `f"(define {key} {value});"` */
  function DefineLine(key: string, v: Value): string
    requires v.IsScalar()
  {
    "(define " + key + " " + ScalarText(v) + ");"
  }

  function DefineLines(defs: seq<(string, Value)>): (r: seq<string>)
    requires forall i :: 0 <= i < |defs| ==> defs[i].1.IsScalar()
    ensures |r| == |defs|
    ensures forall i :: 0 <= i < |defs| ==> r[i] == DefineLine(defs[i].0, defs[i].1)
  {
    seq(|defs|, i requires 0 <= i < |defs| => DefineLine(defs[i].0, defs[i].1))
  }

  /** The `define` section: nothing when there is none; when it is a mapping,
      `process_defines` runs on it and one line per constant is written, in
      order, then a blank line; when it is anything else, `.items()` fails. */
  function DefineBlock(dv: Option<Value>, consts: Table): (r: Result<(Table, seq<string>), Error>)
    requires ValidTable(consts)
    ensures dv.None? ==> r == Success((consts, []))
    ensures dv.Some? && !dv.value.Map? ==> r == Failure(DefineNotMapping)
    ensures dv.Some? && dv.value.Map? && r.Failure? ==>
      ProcessDefines(dv.value.entries, consts).Failure?
      && r == Failure(ProcessDefines(dv.value.entries, consts).error)
    ensures r.Success? ==> ValidTable(r.value.0)
    ensures r.Success? && dv.Some? ==> dv.value.Map? && var defs := dv.value.entries;
      (forall i :: 0 <= i < |defs| ==> DefineOk(defs[i]))
      && |r.value.1| == |defs| + 1 && r.value.1[|defs|] == ""
      && forall i :: 0 <= i < |defs| ==> r.value.1[i] == DefineLine(defs[i].0, defs[i].1)
  {
    match dv
    case None => Success((consts, []))
    case Some(Map(defs)) =>
      var t :- ProcessDefines(defs, consts);
      Success((t, DefineLines(defs) + [""]))
    case Some(_) => Failure(DefineNotMapping)
  }

  /** The comment line written before an entry's key line, if any. */
  function CommentLines(comment: string): (r: seq<string>)
    ensures |r| == (if comment == "" then 0 else 1)
    ensures comment != "" ==> r[0] == ":: " + CleanComment(comment)
  {
    if comment == "" then [] else [":: " + CleanComment(comment)]
  }

  /** The lines one top-level entry produces: its comment, `key : value;` with
      the value formatted at the top indent, and a blank line. */
  function EntryLines(e: Entry, consts: Table): (r: Result<seq<string>, Error>)
    requires ValidTable(consts)
    ensures r.Success? <==> ValidName(e.key) && FormatValue(e.value, TopIndent, consts).Success?
    ensures !ValidName(e.key) ==> r == Failure(InvalidName(e.key))
    ensures ValidName(e.key) && r.Failure? ==> r == Failure(FormatValue(e.value, TopIndent, consts).error)
    ensures r.Success? ==> var c := |CommentLines(e.comment)|;
      |r.value| == c + 2
      && r.value[..c] == CommentLines(e.comment)
      && r.value[c] == e.key + " : " + FormatValue(e.value, TopIndent, consts).value + ";"
      && r.value[c + 1] == ""
  {
    var key :- ValidateName(e.key);
    var f :- FormatValue(e.value, TopIndent, consts);
    Success(CommentLines(e.comment) + [key + " : " + f + ";", ""])
  }

  /** The lines of the entries in order; the first failing entry stops the
      conversion. */
  function BodyLines(es: seq<Entry>, consts: Table): (r: Result<seq<string>, Error>)
    requires ValidTable(consts)
  {
    if es == [] then Success([])
    else
      var first :- EntryLines(es[0], consts);
      var rest :- BodyLines(es[1..], consts);
      Success(first + rest)
  }

  /** The lines before the final filter. */
  function ConvertLines(doc: Document, consts: Table): (r: Result<seq<string>, Error>)
    requires ValidTable(consts)
  {
    var d :- DefineBlock(DefineValue(doc.entries), consts);
    var body :- BodyLines(Body(doc.entries), d.0);
    Success(HeaderLines(doc.topComments) + d.1 + body)
  }

  /** The filter of the final join: a line is kept when it has a
      non-whitespace character or is empty. */
  predicate KeepLine(line: string) {
    Trim(line, IsSpace) != [] || line == ""
  }

  function KeepLines(lines: seq<string>): (r: seq<string>)
    ensures |r| <= |lines|
    ensures forall i :: 0 <= i < |r| ==> KeepLine(r[i])
  {
    if lines == [] then []
    else if KeepLine(lines[0]) then [lines[0]] + KeepLines(lines[1..])
    else KeepLines(lines[1..])
  }

  /** `convert_to_custom_language`: the kept lines joined by line breaks.
      The filter drops nothing: the text is exactly the produced lines
      joined, blank lines included. */
  function Convert(doc: Document, consts: Table): (r: Result<string, Error>)
    requires ValidTable(consts)
    ensures r.Success? <==> ConvertLines(doc, consts).Success?
    ensures r.Failure? ==> r == Failure(ConvertLines(doc, consts).error)
    ensures r.Success? ==> r.value == Join("\n", ConvertLines(doc, consts).value)
  {
    var lines :- ConvertLines(doc, consts);
    ConvertLinesPrintable(doc, consts);
    KeepPrintable(lines);
    Success(Join("\n", KeepLines(lines)))
  }

  /** A printable line survives the filter. */
  lemma PrintableKept(line: string)
    requires Printable(line)
    ensures KeepLine(line)
  {
    if line != [] {
      assert !IsSpace(line[0]);
    }
  }

  /** The filter keeps a list unchanged when it has no line made only of
      whitespace, whatever the lines start with. */
  lemma {:induction false} KeepLinesUnchanged(lines: seq<string>)
    requires forall i :: 0 <= i < |lines| ==> KeepLine(lines[i])
    ensures KeepLines(lines) == lines
  {
    if lines != [] {
      assert KeepLine(lines[0]);
      KeepLinesUnchanged(lines[1..]);
      assert [lines[0]] + lines[1..] == lines;
    }
  }

  /** The filter on one line: it is kept when it is empty or has a
      non-whitespace character, and dropped (not blanked) otherwise. */
  lemma KeepLinesSingle(line: string)
    ensures KeepLine(line) ==> KeepLines([line]) == [line]
    ensures !KeepLine(line) ==> KeepLines([line]) == []
  {
  }

  /** The filter works line by line: filtering two pieces and putting the
      results together is filtering the whole. With KeepLinesSingle this
      fixes the filter on every list: a line is dropped exactly when it is
      non-empty and made only of whitespace, and the kept lines stay in
      order. */
  lemma {:induction false} KeepLinesAppend(a: seq<string>, b: seq<string>)
    ensures KeepLines(a + b) == KeepLines(a) + KeepLines(b)
  {
    if a == [] {
      assert a + b == b;
    } else {
      assert (a + b)[0] == a[0] && (a + b)[1..] == a[1..] + b;
      KeepLinesAppend(a[1..], b);
    }
  }

  /** The filter keeps a list of printable lines unchanged. */
  lemma KeepPrintable(lines: seq<string>)
    requires AllPrintable(lines)
    ensures KeepLines(lines) == lines
  {
    forall i | 0 <= i < |lines| ensures KeepLine(lines[i]) {
      PrintableKept(lines[i]);
    }
    KeepLinesUnchanged(lines);
  }

  /** A line that starts with a valid key is printable. */
  lemma KeyLinePrintable(key: string, tail: string)
    requires ValidName(key)
    ensures Printable(key + tail)
  {
    assert (key + tail)[0] == key[0];
  }

  /** `f"{key} : {formatted_value};"` */
  function KeyLine(key: string, f: string): string {
    key + " : " + f + ";"
  }

  lemma EntryLinesValue(e: Entry, consts: Table)
    requires ValidTable(consts) && EntryLines(e, consts).Success?
    ensures EntryLines(e, consts).value
         == CommentLines(e.comment) + [KeyLine(e.key, FormatValue(e.value, TopIndent, consts).value), ""]
  {
  }

  lemma BlockPrintable(comment: string, key: string, f: string)
    requires ValidName(key)
    ensures AllPrintable(CommentLines(comment) + [KeyLine(key, f), ""])
  {
    var lines := CommentLines(comment) + [KeyLine(key, f), ""];
    var c := |CommentLines(comment)|;
    assert lines[c] == key + (" : " + f + ";");
    KeyLinePrintable(key, " : " + f + ";");
    if c == 1 {
      assert lines[0][0] == ':';
    }
  }

  lemma EntryLinesPrintable(e: Entry, consts: Table)
    requires ValidTable(consts)
    requires EntryLines(e, consts).Success?
    ensures AllPrintable(EntryLines(e, consts).value)
  {
    EntryLinesValue(e, consts);
    BlockPrintable(e.comment, e.key, FormatValue(e.value, TopIndent, consts).value);
  }

  lemma {:induction false} BodyLinesPrintable(es: seq<Entry>, consts: Table)
    requires ValidTable(consts)
    requires BodyLines(es, consts).Success?
    ensures AllPrintable(BodyLines(es, consts).value)
  {
    if es != [] {
      var first := EntryLines(es[0], consts).value;
      var rest := BodyLines(es[1..], consts).value;
      EntryLinesPrintable(es[0], consts);
      BodyLinesPrintable(es[1..], consts);
      ConcatPrintable(first, rest);
    }
  }

  lemma DefineBlockPrintable(dv: Option<Value>, consts: Table)
    requires ValidTable(consts)
    requires DefineBlock(dv, consts).Success?
    ensures AllPrintable(DefineBlock(dv, consts).value.1)
  {
    var lines := DefineBlock(dv, consts).value.1;
    forall i | 0 <= i < |lines|
      ensures Printable(lines[i])
    {
      if dv.Some? && i < |lines| - 1 {
        var defs := dv.value.entries;
        assert lines[i] == DefineLine(defs[i].0, defs[i].1);
        assert lines[i][0] == '(';
      }
    }
  }

  lemma HeaderPrintable(top: seq<string>)
    ensures AllPrintable(HeaderLines(top))
  {
    var h := HeaderLines(top);
    forall i | 0 <= i < |h|
      ensures Printable(h[i])
    {
      if 1 <= i <= |top| {
        assert h[i] == CleanComment(top[i - 1]);
        CleanCommentFacts(top[i - 1]);
      } else if i == 0 {
        assert h[i][0] == '=';
      } else if i == |top| + 1 {
        assert h[i][0] == '=';
      }
    }
  }

  predicate AllPrintable(lines: seq<string>) {
    forall i :: 0 <= i < |lines| ==> Printable(lines[i])
  }

  lemma ConcatPrintable(a: seq<string>, b: seq<string>)
    requires AllPrintable(a) && AllPrintable(b)
    ensures AllPrintable(a + b)
  {
    assert forall i :: |a| <= i < |a + b| ==> (a + b)[i] == b[i - |a|];
  }

  /** Every line the conversion produces is empty or starts with a character
      other than whitespace. */
  lemma ConvertLinesPrintable(doc: Document, consts: Table)
    requires ValidTable(consts)
    requires ConvertLines(doc, consts).Success?
    ensures AllPrintable(ConvertLines(doc, consts).value)
  {
    var dv := DefineValue(doc.entries);
    var d := DefineBlock(dv, consts).value;
    var h := HeaderLines(doc.topComments);
    var body := BodyLines(Body(doc.entries), d.0).value;
    assert AllPrintable(body) by {
      BodyLinesPrintable(Body(doc.entries), d.0);
    }
    assert AllPrintable(d.1) by {
      DefineBlockPrintable(dv, consts);
    }
    assert AllPrintable(h) by {
      HeaderPrintable(doc.topComments);
    }
    ConcatPrintable(h, d.1);
    ConcatPrintable(h + d.1, body);
    assert ConvertLines(doc, consts).value == h + d.1 + body;
  }
}

/** What the conversion as a whole promises: when it succeeds, where each
    line comes from, and that the place of the `define` entry in the
    document does not matter. */
