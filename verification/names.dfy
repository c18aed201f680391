/** Identifier syntax for constant names and mapping keys. */
module Names {
  import opened Wrappers
  import opened Values

  predicate IsLetter(c: char) {
    ('a' <= c <= 'z') || ('A' <= c <= 'Z')
  }

  /** `[_a-zA-Z]` */
  predicate IsIdentStart(c: char) {
    IsLetter(c) || c == '_'
  }

  /** `[_a-zA-Z0-9]` */
  predicate IsIdentChar(c: char) {
    IsIdentStart(c) || ('0' <= c <= '9')
  }

  /** A well-formed name: a letter or underscore, then letters, digits and
      underscores up to the end. */
  predicate ValidName(s: string) {
    |s| > 0 && IsIdentStart(s[0]) && forall i :: 1 <= i < |s| ==> IsIdentChar(s[i])
  }

  /** The `[_a-zA-Z0-9]*` loop of the pattern, run to the end of `s`. */
  function ScanIdentTail(s: string): bool {
    s == [] || (IsIdentChar(s[0]) && ScanIdentTail(s[1..]))
  }

  /** The pattern `^[_a-zA-Z][_a-zA-Z0-9]*` matched against the whole of `s`. */
  function MatchesIdentifier(s: string): bool {
    |s| > 0 && IsIdentStart(s[0]) && ScanIdentTail(s[1..])
  }

  lemma {:induction false} ScanIdentTailAll(s: string)
    ensures ScanIdentTail(s) <==> forall i :: 0 <= i < |s| ==> IsIdentChar(s[i])
  {
    if s != [] {
      ScanIdentTailAll(s[1..]);
      assert forall i :: 1 <= i < |s| ==> s[i] == s[1..][i - 1];
    }
  }

  /** The scanner accepts exactly the well-formed names. */
  lemma MatchesIdentifierIsValidName(s: string)
    ensures MatchesIdentifier(s) <==> ValidName(s)
  {
    if |s| > 0 {
      ScanIdentTailAll(s[1..]);
      assert forall i :: 1 <= i < |s| ==> s[i] == s[1..][i - 1];
    }
  }

  /** `validate_name`, with the pattern anchored at the very end of the name:
      it succeeds exactly on well-formed names and then hands the name back
      unchanged; otherwise it fails naming the offending string. */
  function ValidateName(name: string): (r: Result<string, Error>)
    ensures r.Success? <==> ValidName(name)
    ensures r.Success? ==> r.value == name
    ensures r.Failure? ==> r.error == InvalidName(name)
  {
    MatchesIdentifierIsValidName(name);
    if MatchesIdentifier(name) then Success(name) else Failure(InvalidName(name))
  }

  /** `validate_name` as written: `re.match` with a pattern ending in `$`,
      which in Python matches at the end of the string or just before a
      newline that ends it. */
  function ValidateNameAsWritten(name: string): (r: Result<string, Error>)
    ensures r.Success? <==>
      (ValidName(name) || (|name| > 0 && name[|name| - 1] == '\n' && ValidName(name[..|name| - 1])))
    ensures r.Success? ==> r.value == name
    ensures r.Failure? ==> r.error == InvalidName(name)
  {
    MatchesIdentifierIsValidName(name);
    var withoutLast := if |name| > 0 then name[..|name| - 1] else "";
    MatchesIdentifierIsValidName(withoutLast);
    if MatchesIdentifier(name)
       || (|name| > 0 && name[|name| - 1] == '\n' && MatchesIdentifier(name[..|name| - 1]))
    then Success(name)
    else Failure(InvalidName(name))
  }

  /** The anchor lets every well-formed name followed by one newline through,
      although the newline is not an identifier character; the anchored
      validator rejects it. */
  lemma TrailingNewlineAccepted(n: string)
    requires ValidName(n)
    ensures ValidateNameAsWritten(n + "\n") == Success(n + "\n")
    ensures ValidateName(n + "\n") == Failure(InvalidName(n + "\n"))
  {
    var s := n + "\n";
    assert s[..|s| - 1] == n;
    assert !IsIdentChar(s[|s| - 1]);
  }
}
