/** The constant table filled from the `define` section. */
module Constants {
  import opened Wrappers
  import opened Values
  import opened Names

  /** Constant name to scalar value. */
  type Table = map<string, Value>

  /** What every table built by `ProcessDefines` from an empty one satisfies:
      each name passed validation and each value is a scalar. */
  predicate ValidTable(t: Table) {
    forall k :: k in t ==> ValidName(k) && t[k].IsScalar()
  }

  /** A `define` entry that is accepted. */
  predicate DefineOk(e: (string, Value)) {
    ValidName(e.0) && e.1.IsScalar()
  }

  /** The error a rejected `define` entry raises: the name is checked first. */
  function DefineError(e: (string, Value)): Error {
    if !ValidName(e.0) then InvalidName(e.0) else InvalidConstantType(e.0)
  }

  /** The value of the last entry named `k`, if any. */
  function LastBinding(es: seq<(string, Value)>, k: string): Option<Value> {
    if es == [] then None
    else if es[|es| - 1].0 == k then Some(es[|es| - 1].1)
    else LastBinding(es[..|es| - 1], k)
  }

  /** `process_defines`: the entries are checked in order and stored into `t`.
      It succeeds exactly when every entry is acceptable, and otherwise
      reports the first offending entry. On success a name bound by the
      entries takes the value of its LAST binding (later duplicates
      overwrite earlier ones and what `t` held), every other name of `t`
      keeps its value, and nothing else is added. */
  function ProcessDefines(es: seq<(string, Value)>, t: Table): (r: Result<Table, Error>)
    ensures r.Success? <==> forall i :: 0 <= i < |es| ==> DefineOk(es[i])
    ensures r.Failure? ==>
      exists i :: 0 <= i < |es| && !DefineOk(es[i]) && r.error == DefineError(es[i])
        && forall j :: 0 <= j < i ==> DefineOk(es[j])
    ensures r.Success? ==> forall k :: LastBinding(es, k).Some? ==>
      k in r.value && r.value[k] == LastBinding(es, k).value
    ensures r.Success? ==> forall k :: LastBinding(es, k).None? ==>
      (k in r.value <==> k in t) && (k in t ==> r.value[k] == t[k])
    ensures r.Success? && ValidTable(t) ==> ValidTable(r.value)
  {
    if es == [] then Success(t)
    else
      var prefix := es[..|es| - 1];
      var e := es[|es| - 1];
      assert forall i :: 0 <= i < |prefix| ==> prefix[i] == es[i];
      var before :- ProcessDefines(prefix, t);
      var _ :- ValidateName(e.0);
      if e.1.IsScalar() then Success(before[e.0 := e.1])
      else Failure(InvalidConstantType(e.0))
  }

  /** An entry that no later entry renames decides the constant's value,
      whatever came before it. */
  lemma {:induction false} LaterDuplicateWins(before: seq<(string, Value)>, k: string, v: Value,
                                              after: seq<(string, Value)>)
    requires forall i :: 0 <= i < |after| ==> after[i].0 != k
    ensures LastBinding(before + [(k, v)] + after, k) == Some(v)
  {
    if after != [] {
      var es := before + [(k, v)] + after;
      var shorter := after[..|after| - 1];
      assert es[..|es| - 1] == before + [(k, v)] + shorter;
      LaterDuplicateWins(before, k, v, shorter);
    }
  }
}
