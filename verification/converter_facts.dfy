module ConverterFacts {
  import opened Wrappers
  import opened Text
  import opened Values
  import opened Names
  import opened Constants
  import opened Formatter
  import opened FormatterFacts
  import opened Converter
  import opened ConverterLayout

  /** Every remaining entry has a well-formed key and a value `format_value`
      accepts under table `t`. */
  predicate BodyConvertible(es: seq<Entry>, t: Table)
    requires ValidTable(t)
  {
    forall i :: 0 <= i < |es| ==> ValidName(es[i].key) && Formattable(es[i].value, t)
  }

  /** One entry converts exactly when its key is well-formed and its value
      formattable. */
  lemma EntryLinesSucceedIff(e: Entry, t: Table)
    requires ValidTable(t)
    ensures EntryLines(e, t).Success? <==> ValidName(e.key) && Formattable(e.value, t)
  {
    FormatSucceedsIff(e.value, TopIndent, t);
  }

  lemma BodyLinesCons(es: seq<Entry>, t: Table)
    requires ValidTable(t) && es != []
    ensures BodyLines(es, t).Success? <==> EntryLines(es[0], t).Success? && BodyLines(es[1..], t).Success?
  {
  }

  lemma BodyConvertibleCons(es: seq<Entry>, t: Table)
    requires ValidTable(t) && es != []
    ensures BodyConvertible(es, t) <==>
      ValidName(es[0].key) && Formattable(es[0].value, t) && BodyConvertible(es[1..], t)
  {
    assert forall i :: 1 <= i < |es| ==> es[i] == es[1..][i - 1];
  }

  /** The lines of the entries succeed exactly when every entry's key is
      well-formed and its value formattable. */
  lemma {:induction false} BodyLinesSucceedIff(es: seq<Entry>, t: Table)
    requires ValidTable(t)
    ensures BodyLines(es, t).Success? <==> BodyConvertible(es, t)
  {
    if es != [] {
      EntryLinesSucceedIff(es[0], t);
      BodyLinesSucceedIff(es[1..], t);
      BodyLinesCons(es, t);
      BodyConvertibleCons(es, t);
    }
  }

  /** A failing conversion of the entries reports the error of the first
      entry that fails. */
  lemma BodyLinesFirstError(es: seq<Entry>, t: Table)
    requires ValidTable(t)
    requires BodyLines(es, t).Failure?
    ensures exists i :: (0 <= i < |es| && EntryLines(es[i], t).Failure?
      && BodyLines(es, t).error == EntryLines(es[i], t).error
      && forall j :: 0 <= j < i ==> EntryLines(es[j], t).Success?)
  {
    var i := FirstFailingEntryLines(es, t);
  }

  /** The index of the first entry whose lines fail. */
  lemma {:induction false} FirstFailingEntryLines(es: seq<Entry>, t: Table) returns (i: nat)
    requires ValidTable(t) && BodyLines(es, t).Failure?
    ensures i < |es| && EntryLines(es[i], t).Failure?
    ensures BodyLines(es, t).error == EntryLines(es[i], t).error
    ensures forall j :: 0 <= j < i ==> EntryLines(es[j], t).Success?
    decreases es
  {
    BodyLinesErrorCons(es, t);
    if EntryLines(es[0], t).Failure? {
      i := 0;
    } else {
      var k := FirstFailingEntryLines(es[1..], t);
      i := k + 1;
    }
  }

  lemma BodyLinesErrorCons(es: seq<Entry>, t: Table)
    requires ValidTable(t) && BodyLines(es, t).Failure?
    ensures es != []
    ensures EntryLines(es[0], t).Failure? ==> BodyLines(es, t).error == EntryLines(es[0], t).error
    ensures EntryLines(es[0], t).Success? ==>
      BodyLines(es[1..], t).Failure? && BodyLines(es, t).error == BodyLines(es[1..], t).error
  {
  }

  /** The conversion succeeds exactly when the `define` section (if any) is
      an acceptable mapping and every other entry converts under the table
      the defines produce. */
  lemma ConvertSucceedsIff(doc: Document, consts: Table)
    requires ValidTable(consts)
    ensures var dv := DefineValue(doc.entries);
      Convert(doc, consts).Success? <==>
        DefinesAccepted(dv) && BodyConvertible(Body(doc.entries), TableAfterDefines(dv, consts))
  {
    var dv := DefineValue(doc.entries);
    if DefinesAccepted(dv) {
      BodyLinesSucceedIff(Body(doc.entries), TableAfterDefines(dv, consts));
    }
  }

  /** A failing conversion reports the error of the `define` section when
      that fails (the section is not a mapping, or `process_defines` rejects
      its first bad constant), and otherwise the error of the entries under
      the table the defines produce, which BodyLinesFirstError places at the
      first entry that fails. */
  lemma ConvertError(doc: Document, consts: Table)
    requires ValidTable(consts) && Convert(doc, consts).Failure?
    ensures var d := DefineBlock(DefineValue(doc.entries), consts);
      d.Failure? ==> Convert(doc, consts) == Failure(d.error)
    ensures var d := DefineBlock(DefineValue(doc.entries), consts);
      d.Success? ==> var body := BodyLines(Body(doc.entries), d.value.0);
        body.Failure? && Convert(doc, consts) == Failure(body.error)
  {
  }

  /** A `define` section that is present but not a mapping stops the
      conversion with that error, whatever the rest of the document holds. */
  lemma DefineNotMappingFails(doc: Document, consts: Table)
    requires ValidTable(consts)
    requires DefineValue(doc.entries).Some? && !DefineValue(doc.entries).value.Map?
    ensures Convert(doc, consts) == Failure(DefineNotMapping)
  {
  }

  lemma BodyLinesConsValue(es: seq<Entry>, t: Table)
    requires ValidTable(t) && es != [] && BodyLines(es, t).Success?
    ensures EntryLines(es[0], t).Success? && BodyLines(es[1..], t).Success?
    ensures BodyLines(es, t).value == EntryLines(es[0], t).value + BodyLines(es[1..], t).value
  {
  }

  lemma BodyLinesFormat(es: seq<Entry>, t: Table)
    requires ValidTable(t) && BodyLines(es, t).Success?
    ensures forall i :: 0 <= i < |es| ==> FormatValue(es[i].value, TopIndent, t).Success?
  {
    BodyLinesSucceedIff(es, t);
    forall i | 0 <= i < |es|
      ensures FormatValue(es[i].value, TopIndent, t).Success?
    {
      FormatSucceedsIff(es[i].value, TopIndent, t);
    }
  }

  /** The lines of a successful conversion: the header, the define section,
      then the entries. */
  lemma ConvertLinesParts(doc: Document, consts: Table)
    requires ValidTable(consts) && ConvertLines(doc, consts).Success?
    ensures DefinesAccepted(DefineValue(doc.entries))
    ensures var dv := DefineValue(doc.entries);
      var t := TableAfterDefines(dv, consts);
      BodyLines(Body(doc.entries), t).Success?
      && ConvertLines(doc, consts).value
        == HeaderLines(doc.topComments) + DefineBlock(dv, consts).value.1 + BodyLines(Body(doc.entries), t).value
  {
  }

  /** A successful conversion starts with the comment block when there are
      top comments: `=begin`, one cleaned line per comment in order, `=cut`
      and a blank line. Without top comments no block is written. */
  lemma HeaderLayout(doc: Document, consts: Table)
    requires ValidTable(consts) && ConvertLines(doc, consts).Success?
    ensures var lines := ConvertLines(doc, consts).value;
      var top := doc.topComments;
      top != [] ==>
        |lines| >= |top| + 3 && lines[0] == "=begin" && lines[|top| + 1] == "=cut" && lines[|top| + 2] == ""
        && forall i :: 0 <= i < |top| ==> lines[i + 1] == CleanComment(top[i])
  {
    ConvertLinesParts(doc, consts);
    var dv := DefineValue(doc.entries);
    var top := doc.topComments;
    if top != [] {
      HeaderInLines(top, DefineBlock(dv, consts).value.1, BodyLines(Body(doc.entries), TableAfterDefines(dv, consts)).value);
    }
  }

  lemma HeaderInLines(top: seq<string>, d: seq<string>, b: seq<string>)
    requires top != []
    ensures var lines := HeaderLines(top) + d + b;
      |lines| >= |top| + 3 && lines[0] == "=begin" && lines[|top| + 1] == "=cut" && lines[|top| + 2] == ""
      && forall i :: 0 <= i < |top| ==> lines[i + 1] == CleanComment(top[i])
  {
  }

  /** After the header come the define lines, one per constant in the order
      of the section, each showing the value as written (not evaluated),
      then a blank line. */
  lemma DefineLayout(doc: Document, consts: Table)
    requires ValidTable(consts) && ConvertLines(doc, consts).Success?
    ensures var lines := ConvertLines(doc, consts).value;
      var dv := DefineValue(doc.entries);
      var h := |HeaderLines(doc.topComments)|;
      dv.Some? ==> dv.value.Map? && var defs := dv.value.entries;
        (forall i :: 0 <= i < |defs| ==> DefineOk(defs[i]))
        && h + |defs| < |lines| && lines[h + |defs|] == ""
        && forall i :: 0 <= i < |defs| ==> lines[h + i] == DefineLine(defs[i].0, defs[i].1)
  {
    ConvertLinesParts(doc, consts);
    var dv := DefineValue(doc.entries);
    DefineBlockText(dv, consts);
    if dv.Some? {
      DefineInLines(HeaderLines(doc.topComments), dv.value.entries,
                    BodyLines(Body(doc.entries), TableAfterDefines(dv, consts)).value);
    }
  }

  lemma DefineInLines(h: seq<string>, defs: seq<(string, Value)>, b: seq<string>)
    requires forall i :: 0 <= i < |defs| ==> defs[i].1.IsScalar()
    ensures var lines := h + (DefineLines(defs) + [""]) + b;
      |h| + |defs| < |lines| && lines[|h| + |defs|] == ""
      && forall i :: 0 <= i < |defs| ==> lines[|h| + i] == DefineLine(defs[i].0, defs[i].1)
  {
    var d := DefineLines(defs) + [""];
    assert forall k :: 0 <= k < |d| ==> (h + d + b)[|h| + k] == d[k];
  }

  /** The body of a successful conversion is exactly the entries' blocks in
      document order, each value written as `format_value` writes it at the
      top indent. */
  lemma {:induction false} BodyLinesAreBlocks(es: seq<Entry>, t: Table)
    requires ValidTable(t) && BodyLines(es, t).Success?
    ensures forall i :: 0 <= i < |es| ==> FormatValue(es[i].value, TopIndent, t).Success?
    ensures BodyLines(es, t).value == Blocks(Keys(es), CommentsOf(es), Formatted(es, t))
  {
    BodyLinesFormat(es, t);
    if es != [] {
      var tail := es[1..];
      BodyLinesConsValue(es, t);
      BodyLinesAreBlocks(tail, t);
      EntryLinesValue(es[0], t);
      var ks := Keys(es);
      var cs := CommentsOf(es);
      var fs := Formatted(es, t);
      assert ks[1..] == Keys(tail) && cs[1..] == CommentsOf(tail) && fs[1..] == Formatted(tail, t) by {
        assert forall i :: 1 <= i < |es| ==> es[i] == tail[i - 1];
      }
      BlocksCons(EntryLines(es[0], t).value, BodyLines(tail, t).value, ks, cs, fs);
    }
  }

  lemma BlocksCons(first: seq<string>, rest: seq<string>, keys: seq<string>, cs: seq<seq<string>>, fs: seq<string>)
    requires |keys| == |cs| == |fs| && keys != []
    requires first == cs[0] + [KeyLine(keys[0], fs[0]), ""]
    requires rest == Blocks(keys[1..], cs[1..], fs[1..])
    ensures first + rest == Blocks(keys, cs, fs)
  {
  }

  /** The define section written is the one `DefineSection` describes. */
  lemma DefineBlockText(dv: Option<Value>, consts: Table)
    requires ValidTable(consts) && DefineBlock(dv, consts).Success?
    ensures DefinesAccepted(dv) && DefineBlock(dv, consts).value.1 == DefineSection(dv)
    ensures DefineBlock(dv, consts).value.0 == TableAfterDefines(dv, consts)
  {
  }

  /** A successful conversion writes the comment block, then the define
      section, then the blocks of the remaining entries in document order
      formatted with the table the defines produced, and nothing else. */
  lemma ConvertLinesLayout(doc: Document, consts: Table)
    requires ValidTable(consts) && ConvertLines(doc, consts).Success?
    ensures DefinesAccepted(DefineValue(doc.entries))
    ensures var es := Body(doc.entries);
      var t := TableAfterDefines(DefineValue(doc.entries), consts);
      (forall i :: 0 <= i < |es| ==> FormatValue(es[i].value, TopIndent, t).Success?)
      && ConvertLines(doc, consts).value
         == HeaderLines(doc.topComments) + DefineSection(DefineValue(doc.entries)) + Blocks(Keys(es), CommentsOf(es), Formatted(es, t))
  {
    ConvertLinesParts(doc, consts);
    var dv := DefineValue(doc.entries);
    DefineBlockText(dv, consts);
    BodyLinesAreBlocks(Body(doc.entries), TableAfterDefines(dv, consts));
  }

  lemma DefineValueSplice(before: seq<Entry>, x: Entry, after: seq<Entry>)
    requires forall i :: 0 <= i < |before| ==> before[i].key != DefineKey
    requires x.key == DefineKey
    ensures DefineValue(before + [x] + after) == Some(x.value)
  {
    var es := before + [x] + after;
    assert es[|before|] == x;
    assert forall i :: 0 <= i < |before| ==> es[i] == before[i];
  }

  lemma {:induction false} BodyConcat(a: seq<Entry>, b: seq<Entry>)
    ensures Body(a + b) == Body(a) + Body(b)
  {
    if a != [] {
      BodyConcat(a[1..], b);
      assert (a + b)[1..] == a[1..] + b;
      assert (a + b)[0] == a[0];
      if a[0].key == DefineKey {
        assert Body(a + b) == Body(a[1..] + b);
      } else {
        assert Body(a + b) == [a[0]] + Body(a[1..] + b);
      }
    } else {
      assert a + b == b;
    }
  }

  lemma {:induction false} BodyOfPlain(es: seq<Entry>)
    requires forall i :: 0 <= i < |es| ==> es[i].key != DefineKey
    ensures Body(es) == es
  {
    if es != [] {
      BodyOfPlain(es[1..]);
      assert [es[0]] + es[1..] == es;
    }
  }

  lemma SpliceBody(before: seq<Entry>, x: Entry, after: seq<Entry>)
    requires forall i :: 0 <= i < |before| ==> before[i].key != DefineKey
    requires forall i :: 0 <= i < |after| ==> after[i].key != DefineKey
    requires x.key == DefineKey
    ensures Body(before + [x] + after) == before + after
  {
    BodyConcat(before + [x], after);
    BodyConcat(before, [x]);
    assert Body([x]) == [];
    BodyOfPlain(before);
    BodyOfPlain(after);
    assert Body(before + [x]) == before;
  }

  /** Moving the `define` entry to the front, or changing its comment,
      changes neither the section found nor the remaining entries. */
  lemma SpliceDefine(before: seq<Entry>, x1: Entry, x2: Entry, after: seq<Entry>)
    requires forall i :: 0 <= i < |before| ==> before[i].key != DefineKey
    requires forall i :: 0 <= i < |after| ==> after[i].key != DefineKey
    requires x1.key == DefineKey && x2.key == DefineKey && x1.value == x2.value
    ensures DefineValue(before + [x1] + after) == DefineValue([x2] + before + after)
    ensures Body(before + [x1] + after) == Body([x2] + before + after) == before + after
  {
    DefineValueSplice(before, x1, after);
    SpliceFront(x2, before, after);
    SpliceBody(before, x1, after);
  }

  lemma SpliceFront(x: Entry, before: seq<Entry>, after: seq<Entry>)
    requires forall i :: 0 <= i < |before| ==> before[i].key != DefineKey
    requires forall i :: 0 <= i < |after| ==> after[i].key != DefineKey
    requires x.key == DefineKey
    ensures DefineValue([x] + before + after) == Some(x.value)
    ensures Body([x] + before + after) == before + after
  {
    var rest := before + after;
    assert [x] + before + after == [x] + rest;
    assert forall i :: 0 <= i < |rest| ==> rest[i].key != DefineKey by {
      forall i | 0 <= i < |rest| ensures rest[i].key != DefineKey {
        if i < |before| { assert rest[i] == before[i]; } else { assert rest[i] == after[i - |before|]; }
      }
    }
    assert ([x] + rest)[0] == x;
    assert ([x] + rest)[1..] == rest;
    BodyOfPlain(rest);
  }

  /** The `define` entry is handled before every other entry wherever it
      stands, and its comment is dropped: moving it to the front of the
      document, or changing its comment, leaves the output unchanged. */
  lemma DefinePositionIrrelevant(top: seq<string>, before: seq<Entry>, defs: Value, c1: string, c2: string,
                                 after: seq<Entry>, consts: Table)
    requires ValidTable(consts)
    requires forall i :: 0 <= i < |before| ==> before[i].key != DefineKey
    requires forall i :: 0 <= i < |after| ==> after[i].key != DefineKey
    ensures Convert(Document(top, before + [Entry(DefineKey, defs, c1)] + after), consts)
         == Convert(Document(top, [Entry(DefineKey, defs, c2)] + before + after), consts)
  {
    SpliceDefine(before, Entry(DefineKey, defs, c1), Entry(DefineKey, defs, c2), after);
  }
}
