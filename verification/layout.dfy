/** The shape of the text a conversion writes: where each block of lines
    sits and what it holds. */
module ConverterLayout {
  import opened Wrappers
  import opened Text
  import opened Values
  import opened Names
  import opened Constants
  import opened Formatter
  import opened FormatterFacts
  import opened Converter

  /** The comment lines of each entry, in order. */
  function CommentsOf(es: seq<Entry>): (cs: seq<seq<string>>)
    ensures |cs| == |es|
    ensures forall i :: 0 <= i < |es| ==> cs[i] == CommentLines(es[i].comment)
  {
    if es == [] then []
    else
      assert forall i :: 1 <= i < |es| ==> es[i] == es[1..][i - 1];
      [CommentLines(es[0].comment)] + CommentsOf(es[1..])
  }

  /** The formatted values of the entries, in order. */
  function Formatted(es: seq<Entry>, t: Table): (fs: seq<string>)
    requires ValidTable(t)
    requires forall i :: 0 <= i < |es| ==> FormatValue(es[i].value, TopIndent, t).Success?
    ensures |fs| == |es|
    ensures forall i :: 0 <= i < |es| ==> fs[i] == FormatValue(es[i].value, TopIndent, t).value
  {
    if es == [] then []
    else
      assert forall i :: 1 <= i < |es| ==> es[i] == es[1..][i - 1];
      [FormatValue(es[0].value, TopIndent, t).value] + Formatted(es[1..], t)
  }

  function Keys(es: seq<Entry>): (ks: seq<string>)
    ensures |ks| == |es|
    ensures forall i :: 0 <= i < |es| ==> ks[i] == es[i].key
  {
    if es == [] then []
    else
      assert forall i :: 1 <= i < |es| ==> es[i] == es[1..][i - 1];
      [es[0].key] + Keys(es[1..])
  }

  /** The `define` section, when there is one, is a mapping whose every
      entry `process_defines` accepts. */
  predicate DefinesAccepted(dv: Option<Value>) {
    dv.None? || (dv.value.Map? && forall i :: 0 <= i < |dv.value.entries| ==> DefineOk(dv.value.entries[i]))
  }

  /** The constant table the body is formatted with. */
  function TableAfterDefines(dv: Option<Value>, consts: Table): (t: Table)
    requires ValidTable(consts) && DefinesAccepted(dv)
    ensures ValidTable(t)
  {
    if dv.None? then consts else ProcessDefines(dv.value.entries, consts).value
  }

  /** The lines of the define section: one per constant, in order, then a
      blank line; nothing without a section. */
  function DefineSection(dv: Option<Value>): seq<string>
    requires DefinesAccepted(dv)
  {
    if dv.None? then [] else DefineLines(dv.value.entries) + [""]
  }

  /** One block per entry, one after the other: the comment lines `cs[i]`,
      then the key line `KeyLine(keys[i], fs[i])`, then a blank line. */
  function Blocks(keys: seq<string>, cs: seq<seq<string>>, fs: seq<string>): seq<string>
    requires |keys| == |cs| == |fs|
    decreases |keys|
  {
    if keys == [] then [] else cs[0] + [KeyLine(keys[0], fs[0]), ""] + Blocks(keys[1..], cs[1..], fs[1..])
  }
}
