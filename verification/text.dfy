/** The small string toolkit the converter relies on: Python's whitespace class,
    `strip`/`lstrip`, whitespace `split`, `join` and prefix tests. */
module Text {

  /** The characters Python's `str.isspace()` accepts; `str.split()` and
      `str.strip()` without arguments treat exactly these as whitespace. */
  predicate IsSpace(c: char) {
    || ('\t' <= c <= '\r')
    || ('\U{1C}' <= c <= '\U{1F}')
    || c == ' '
    || c == '\U{85}'
    || c == '\U{A0}'
    || c == '\U{1680}'
    || ('\U{2000}' <= c <= '\U{200A}')
    || c == '\U{2028}'
    || c == '\U{2029}'
    || c == '\U{202F}'
    || c == '\U{205F}'
    || c == '\U{3000}'
  }

  /** No character of `s` is whitespace. */
  predicate NoSpace(s: string) {
    forall i :: 0 <= i < |s| ==> !IsSpace(s[i])
  }

  /** `" " * n` */
  function Spaces(n: nat): (r: string)
    ensures |r| == n
    ensures forall i :: 0 <= i < n ==> r[i] == ' '
  {
    if n == 0 then "" else Spaces(n - 1) + " "
  }

  /** `sep.join(parts)` */
  function Join(sep: string, parts: seq<string>): string {
    if |parts| == 0 then ""
    else if |parts| == 1 then parts[0]
    else parts[0] + sep + Join(sep, parts[1..])
  }

  predicate StartsWith(s: string, prefix: string) {
    |prefix| <= |s| && s[..|prefix|] == prefix
  }

  predicate EndsWith(s: string, suffix: string) {
    |suffix| <= |s| && s[|s| - |suffix|..] == suffix
  }

  /** Python's `s.lstrip(chars)`: drops the longest prefix made only of
      characters that `drop` selects. */
  function TrimLeft(s: string, drop: char -> bool): (r: string)
    ensures |r| <= |s| && r == s[|s| - |r|..]
    ensures forall i :: 0 <= i < |s| - |r| ==> drop(s[i])
    ensures r == [] || !drop(r[0])
  {
    if s != [] && drop(s[0]) then
      var t := TrimLeft(s[1..], drop);
      assert forall i :: 1 <= i < |s| - |t| ==> s[i] == s[1..][i - 1];
      assert s[1..][|s| - 1 - |t|..] == s[|s| - |t|..];
      t
    else s
  }

  /** Python's `s.rstrip(chars)`: drops the longest suffix made only of
      characters that `drop` selects. */
  function TrimRight(s: string, drop: char -> bool): (r: string)
    ensures |r| <= |s| && r == s[..|r|]
    ensures forall i :: |r| <= i < |s| ==> drop(s[i])
    ensures r == [] || !drop(r[|r| - 1])
  {
    if s != [] && drop(s[|s| - 1]) then
      var t := TrimRight(s[..|s| - 1], drop);
      assert forall i :: |t| <= i < |s| - 1 ==> s[i] == s[..|s| - 1][i];
      assert s[..|s| - 1][..|t|] == s[..|t|];
      t
    else s
  }

  /** Python's `s.strip(chars)`: both ends trimmed. The result is empty exactly
      when every character of `s` is dropped; otherwise it starts and ends
      with a kept character. */
  function Trim(s: string, drop: char -> bool): (r: string)
    ensures |r| <= |s|
    ensures r == [] <==> forall i :: 0 <= i < |s| ==> drop(s[i])
    ensures r != [] ==> !drop(r[0]) && !drop(r[|r| - 1])
  {
    var left := TrimLeft(s, drop);
    var r := TrimRight(left, drop);
    assert r == [] ==> forall i :: 0 <= i < |s| ==> drop(s[i]) by {
      if r == [] {
        assert left == [];
      }
    }
    r
  }

  /** `s` with every whitespace character removed. */
  function NonSpace(s: string): (r: string)
    ensures NoSpace(r)
  {
    if s == [] then ""
    else if IsSpace(s[0]) then NonSpace(s[1..])
    else [s[0]] + NonSpace(s[1..])
  }

  /** All the words of `ws` written one after another. */
  function Concat(ws: seq<string>): string {
    if ws == [] then "" else ws[0] + Concat(ws[1..])
  }

  /** The words of `s`, given that the characters of `word` have already been
      read as the start of the current word. */
  function SplitFrom(s: string, word: string): (ws: seq<string>)
    requires NoSpace(word)
    ensures forall k :: 0 <= k < |ws| ==> ws[k] != [] && NoSpace(ws[k])
    ensures Concat(ws) == word + NonSpace(s)
  {
    if s == [] then
      (if word == [] then [] else [word])
    else if IsSpace(s[0]) then
      var rest := SplitFrom(s[1..], []);
      if word == [] then rest
      else
        assert Concat([word] + rest) == word + Concat(rest) by {
          assert ([word] + rest)[1..] == rest;
        }
        [word] + rest
    else
      assert word + [s[0]] + NonSpace(s[1..]) == word + NonSpace(s);
      SplitFrom(s[1..], word + [s[0]])
  }

  /** Python's `s.split()`: the maximal runs of non-whitespace characters, in
      order. No word is empty or holds whitespace, and together the words are
      exactly the non-whitespace characters of `s`. */
  function Words(s: string): (ws: seq<string>)
    ensures forall k :: 0 <= k < |ws| ==> ws[k] != [] && NoSpace(ws[k])
    ensures Concat(ws) == NonSpace(s)
  {
    SplitFrom(s, [])
  }
}

/** Properties of the string toolkit: the trimmed text is determined by what
    is dropped at each end, and splitting undoes joining with single spaces. */
module TextFacts {
  import opened Text

  /** `lstrip` removes exactly a dropped prefix that is followed by a kept
      character (or by nothing). */
  lemma TrimLeftUnique(p: string, r: string, drop: char -> bool)
    requires forall i :: 0 <= i < |p| ==> drop(p[i])
    requires r == [] || !drop(r[0])
    ensures TrimLeft(p + r, drop) == r
  {
    var s := p + r;
    assert s[|p|..] == r;
  }

  /** `rstrip` removes exactly a dropped suffix that follows a kept
      character (or nothing). */
  lemma TrimRightUnique(r: string, q: string, drop: char -> bool)
    requires forall i :: 0 <= i < |q| ==> drop(q[i])
    requires r == [] || !drop(r[|r| - 1])
    ensures TrimRight(r + q, drop) == r
  {
    var s := r + q;
    assert s[..|r|] == r;
  }

  /** `strip` keeps exactly the middle part when both ends are dropped
      characters and the middle starts and ends with kept ones. */
  lemma TrimUnique(p: string, m: string, q: string, drop: char -> bool)
    requires forall i :: 0 <= i < |p| ==> drop(p[i])
    requires forall i :: 0 <= i < |q| ==> drop(q[i])
    requires m != [] && !drop(m[0]) && !drop(m[|m| - 1])
    ensures Trim(p + m + q, drop) == m
  {
    assert p + m + q == p + (m + q);
    TrimLeftUnique(p, m + q, drop);
    TrimRightUnique(m, q, drop);
  }

  lemma {:induction false} SplitFromWord(w: string, s: string, word: string)
    requires NoSpace(word) && NoSpace(w)
    ensures SplitFrom(w + s, word) == SplitFrom(s, word + w)
  {
    if w == [] {
      assert w + s == s && word + w == word;
    } else {
      assert (w + s)[0] == w[0] && (w + s)[1..] == w[1..] + s;
      assert NoSpace(word + [w[0]]);
      SplitFromWord(w[1..], s, word + [w[0]]);
      assert word + [w[0]] + w[1..] == word + w;
    }
  }

  /** A join of non-empty parts starts with the first part's first
      character and ends with the last part's last character. */
  lemma {:induction false} JoinEnds(sep: string, ws: seq<string>)
    requires ws != [] && forall k :: 0 <= k < |ws| ==> ws[k] != []
    ensures var j := Join(sep, ws);
      j != [] && j[0] == ws[0][0] && j[|j| - 1] == ws[|ws| - 1][|ws[|ws| - 1]| - 1]
  {
    if |ws| > 1 {
      JoinEnds(sep, ws[1..]);
    }
  }

  /** Every character of `s` is whitespace (true of the empty string). */
  predicate AllSpace(s: string) {
    forall i :: 0 <= i < |s| ==> IsSpace(s[i])
  }

  /** The words with the separators around and between them:
      `seps[0] + ws[0] + seps[1] + ... + ws[n - 1] + seps[n]`. */
  function Interleave(ws: seq<string>, seps: seq<string>): string
    requires |seps| == |ws| + 1
  {
    if ws == [] then seps[0] else seps[0] + ws[0] + Interleave(ws[1..], seps[1..])
  }

  /** Separators `split()` must see: whitespace only, and non-empty between
      two words; the leading and trailing ones may be empty. */
  predicate Separators(seps: seq<string>, n: nat)
    requires |seps| == n + 1
  {
    (forall k :: 0 <= k < |seps| ==> AllSpace(seps[k]))
    && forall k :: 0 < k < n ==> seps[k] != []
  }

  /** Whitespace before the next word is skipped. */
  lemma {:induction false} SkipSpaces(sp: string, s: string)
    requires AllSpace(sp)
    ensures SplitFrom(sp + s, []) == SplitFrom(s, [])
  {
    if sp != [] {
      assert (sp + s)[0] == sp[0] && (sp + s)[1..] == sp[1..] + s;
      SkipSpaces(sp[1..], s);
    } else {
      assert sp + s == s;
    }
  }

  /** Splitting the interleaving gives back the words. */
  lemma {:induction false} SplitInterleave(ws: seq<string>, seps: seq<string>)
    requires |seps| == |ws| + 1 && Separators(seps, |ws|)
    requires forall k :: 0 <= k < |ws| ==> ws[k] != [] && NoSpace(ws[k])
    ensures SplitFrom(Interleave(ws, seps), []) == ws
    decreases |ws|, 0
  {
    if ws == [] {
      SkipSpaces(seps[0], []);
      assert seps[0] + [] == seps[0];
    } else {
      var t := Interleave(ws[1..], seps[1..]);
      assert seps[0] + ws[0] + t == seps[0] + (ws[0] + t);
      SkipSpaces(seps[0], ws[0] + t);
      SplitFromWord(ws[0], t, []);
      assert [] + ws[0] == ws[0];
      SplitAfterWord(ws[0], ws[1..], seps[1..]);
      assert ws == [ws[0]] + ws[1..];
    }
  }

  /** Once a word has been read, the separator that follows ends it and the
      remaining words are split as before. */
  lemma {:induction false} SplitAfterWord(w: string, ws: seq<string>, seps: seq<string>)
    requires w != [] && NoSpace(w)
    requires |seps| == |ws| + 1 && (forall k :: 0 <= k < |seps| ==> AllSpace(seps[k]))
    requires forall k :: 0 <= k < |ws| ==> seps[k] != []
    requires forall k :: 0 <= k < |ws| ==> ws[k] != [] && NoSpace(ws[k])
    ensures SplitFrom(Interleave(ws, seps), w) == [w] + ws
    decreases |ws|, 1
  {
    var s := Interleave(ws, seps);
    if s == [] {
      assert ws == [];
    } else {
      var sp := seps[0];
      assert sp != [] by {
        if ws == [] {
          assert s == sp;
        }
      }
      assert s[0] == sp[0];
      var seps2 := [sp[1..]] + seps[1..];
      assert s[1..] == Interleave(ws, seps2) by {
        if ws == [] {
        } else {
          assert seps2[1..] == seps[1..];
          assert s == sp + ws[0] + Interleave(ws[1..], seps[1..]);
        }
      }
      assert AllSpace(sp[1..]);
      SplitInterleave(ws, seps2);
    }
  }

  /** `split()` undoes writing words with any whitespace between them (at
      least one character) and any whitespace, or none, before and after:
      tabs, newlines and runs of spaces separate words just as one space
      does. */
  lemma WordsOfInterleave(ws: seq<string>, seps: seq<string>)
    requires |seps| == |ws| + 1 && Separators(seps, |ws|)
    requires forall k :: 0 <= k < |ws| ==> ws[k] != [] && NoSpace(ws[k])
    ensures Words(Interleave(ws, seps)) == ws
  {
    SplitInterleave(ws, seps);
  }

  /** Splitting on whitespace undoes joining non-empty words with single
      spaces. */
  lemma {:induction false} WordsOfJoin(ws: seq<string>)
    requires forall k :: 0 <= k < |ws| ==> ws[k] != [] && NoSpace(ws[k])
    ensures Words(Join(" ", ws)) == ws
  {
    if |ws| == 1 {
      SplitFromWord(ws[0], [], []);
      assert ws[0] + [] == ws[0] && [] + ws[0] == ws[0];
    } else if |ws| > 1 {
      var w, rest := ws[0], Join(" ", ws[1..]);
      WordsOfJoin(ws[1..]);
      assert w + " " + rest == w + (" " + rest);
      SplitFromWord(w, " " + rest, []);
      assert [] + w == w;
      assert (" " + rest)[0] == ' ' && (" " + rest)[1..] == rest;
      assert ws == [w] + ws[1..];
    }
  }
}
