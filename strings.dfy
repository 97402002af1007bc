/** The parts of Python's `str` that the scrapers rely on: whitespace, ASCII
    lower-casing, substring tests, `strip`, `split('\n')`, `replace(w, '')`,
    `re.sub(r'\s+', ' ', s)` and slicing `s[:n]`. */
module Strings {

  /** Python's `str.isspace()`, which is also the class `\s` matches in a `str` pattern. */
  predicate IsSpace(c: char) {
    || c == ' '
    || '\t' <= c <= '\r'
    || '\U{1C}' <= c <= '\U{1F}'
    || c == '\U{85}' || c == '\U{A0}' || c == '\U{1680}'
    || '\U{2000}' <= c <= '\U{200A}'
    || c == '\U{2028}' || c == '\U{2029}' || c == '\U{202F}' || c == '\U{205F}' || c == '\U{3000}'
  }

  predicate AllSpace(s: string) {
    forall i :: 0 <= i < |s| ==> IsSpace(s[i])
  }

  /** No two neighbouring characters are both whitespace. */
  predicate NoSpaceRuns(s: string) {
    forall i :: 0 <= i < |s| - 1 ==> !(IsSpace(s[i]) && IsSpace(s[i + 1]))
  }

  /** Every whitespace character is a plain space. */
  predicate OnlyPlainSpaces(s: string) {
    forall i :: 0 <= i < |s| ==> IsSpace(s[i]) ==> s[i] == ' '
  }

  // ---------------------------------------------------------------- case

  /** `str.lower()` on the ASCII letters; every other character is left alone. */
  function LowerChar(c: char): char {
    if 'A' <= c <= 'Z' then (c as int + 32) as char else c
  }

  function Lower(s: string): string {
    seq(|s|, i requires 0 <= i < |s| => LowerChar(s[i]))
  }

  lemma LowerIdempotent(s: string)
    ensures Lower(Lower(s)) == Lower(s)
  {
  }

  lemma LowerAppend(a: string, b: string)
    ensures Lower(a + b) == Lower(a) + Lower(b)
  {
  }

  // ----------------------------------------------------------- substrings

  /** `w` occurs in `s` starting at index `i`. */
  predicate OccursAt(s: string, w: string, i: nat) {
    i + |w| <= |s| && w <= s[i..]
  }

  /** Python's `w in s`. */
  predicate Contains(s: string, w: string) {
    exists i: nat | i <= |s| :: OccursAt(s, w, i)
  }

  lemma ContainsPrefix(s: string, w: string)
    requires w <= s
    ensures Contains(s, w)
  {
    assert OccursAt(s, w, 0);
  }

  /** Every character of an occurring word is a character of the text. */
  lemma ContainsChar(s: string, w: string, k: nat)
    requires Contains(s, w) && k < |w|
    ensures w[k] in s
  {
    var i: nat :| i <= |s| && OccursAt(s, w, i);
    assert s[i + k] == w[k];
  }

  /** A word with a character the text lacks does not occur in it. */
  lemma NotContainsByChar(s: string, alphabet: set<char>, w: string, k: nat)
    requires forall j :: 0 <= j < |s| ==> s[j] in alphabet
    requires k < |w| && w[k] !in alphabet
    ensures !Contains(s, w)
  {
    if Contains(s, w) {
      ContainsChar(s, w, k);
    }
  }

  lemma ContainsLonger(s: string, w: string)
    requires |s| < |w|
    ensures !Contains(s, w)
  {
  }

  /** `any(w in s for w in words)`. */
  predicate AnyOccurs(words: set<string>, s: string) {
    exists w :: w in words && Contains(s, w)
  }

  lemma AnyOccursMono(small: set<string>, large: set<string>, s: string)
    requires small <= large && AnyOccurs(small, s)
    ensures AnyOccurs(large, s)
  {
  }

  // -------------------------------------------------------------- stripping

  /** `s.lstrip()` */
  function LStrip(s: string): (r: string)
    ensures |r| <= |s| && r == s[|s| - |r|..]
    ensures r == [] || !IsSpace(r[0])
    ensures AllSpace(s[..|s| - |r|])
  {
    if s != [] && IsSpace(s[0]) then
      var r := LStrip(s[1..]);
      assert s[..|s| - |r|] == [s[0]] + s[1..][..|s| - 1 - |r|];
      r
    else s
  }

  /** `s.rstrip()` */
  function RStrip(s: string): (r: string)
    ensures |r| <= |s| && r == s[..|r|]
    ensures r == [] || !IsSpace(r[|r| - 1])
    ensures AllSpace(s[|r|..])
  {
    if s != [] && IsSpace(s[|s| - 1]) then
      var r := RStrip(s[..|s| - 1]);
      assert s[|r|..] == s[..|s| - 1][|r|..] + [s[|s| - 1]];
      r
    else s
  }

  /** `s.strip()`: the longest slice of `s` that neither starts nor ends with whitespace. */
  function Strip(s: string): (r: string)
    ensures r == [] || (!IsSpace(r[0]) && !IsSpace(r[|r| - 1]))
    ensures r == [] <==> AllSpace(s)
    ensures forall i :: 0 <= i < |r| ==> r[i] in s
    ensures |r| <= |s|
    ensures exists a, b :: 0 <= a <= b <= |s| && r == s[a..b] && AllSpace(s[..a]) && AllSpace(s[b..])
  {
    var l := LStrip(s);
    StripSlice(s, l, RStrip(l));
    RStrip(l)
  }

  /** What is left after both strips is a slice of `s` between two all-blank ends. */
  lemma StripSlice(s: string, l: string, r: string)
    requires |l| <= |s| && l == s[|s| - |l|..] && (l == [] || !IsSpace(l[0]))
    requires |r| <= |l| && r == l[..|r|] && AllSpace(l[|r|..])
    requires AllSpace(s[..|s| - |l|])
    ensures r == [] <==> AllSpace(s)
    ensures forall i :: 0 <= i < |r| ==> r[i] in s
    ensures exists a, b :: 0 <= a <= b <= |s| && r == s[a..b] && AllSpace(s[..a]) && AllSpace(s[b..])
  {
    var n := |s| - |l|;
    assert forall i :: n <= i < |s| ==> s[i] == l[i - n];
    assert r == s[n..n + |r|];
    assert s[n + |r|..] == l[|r|..];
    if r == [] {
      assert l[|r|..] == l;
      assert forall i :: 0 <= i < n ==> s[i] == s[..n][i];
    }
    forall i | 0 <= i < |r| ensures r[i] in s {
      assert r[i] == l[i] == s[n + i];
    }
  }

  // ---------------------------------------------------------------- splitting

  /** `s.split(sep)` for a one-character separator: never empty, one piece more than separators. */
  function Split(s: string, sep: char): (r: seq<string>)
    ensures |r| >= 1
    ensures forall i :: 0 <= i < |r| ==> sep !in r[i]
    ensures Join(r, sep) == s
  {
    if s == [] then [[]]
    else
      var rest := Split(s[1..], sep);
      if s[0] == sep then [[]] + rest
      else [[s[0]] + rest[0]] + rest[1..]
  }

  /** `sep.join(pieces)`, the inverse of Split. */
  function Join(pieces: seq<string>, sep: char): string {
    if pieces == [] then []
    else if |pieces| == 1 then pieces[0]
    else pieces[0] + [sep] + Join(pieces[1..], sep)
  }

  /** Pieces of a whitespace-separated join are all blank exactly when the join is. */
  lemma {:induction false} JoinAllSpace(pieces: seq<string>, sep: char)
    requires IsSpace(sep)
    ensures AllSpace(Join(pieces, sep)) <==> forall i :: 0 <= i < |pieces| ==> AllSpace(pieces[i])
  {
    if |pieces| > 1 {
      JoinAllSpace(pieces[1..], sep);
      var j := Join(pieces[1..], sep);
      var whole := pieces[0] + [sep] + j;
      assert whole[..|pieces[0]|] == pieces[0];
      assert whole[|pieces[0]| + 1..] == j;
      if AllSpace(whole) {
        forall i | 0 <= i < |pieces| ensures AllSpace(pieces[i]) {
          if i > 0 { assert pieces[i] == pieces[1..][i - 1]; }
        }
      }
      if forall i :: 0 <= i < |pieces| ==> AllSpace(pieces[i]) {
        assert forall i :: 0 <= i < |pieces| - 1 ==> AllSpace(pieces[1..][i]);
        forall k | 0 <= k < |whole| ensures IsSpace(whole[k]) {
          if k < |pieces[0]| {
            assert whole[k] == pieces[0][k];
          } else if k > |pieces[0]| {
            assert whole[k] == j[k - |pieces[0]| - 1];
          }
        }
      }
    }
  }

  // ------------------------------------------------------------- replacing

  /** An occurrence in the tail is an occurrence in the whole. */
  lemma ContainsInTail(s: string, w: string)
    requires s != [] && Contains(s[1..], w)
    ensures Contains(s, w)
  {
    var i: nat :| i <= |s[1..]| && OccursAt(s[1..], w, i);
    assert s[i + 1..] == s[1..][i..];
    assert OccursAt(s, w, i + 1);
  }

  /** A word that is neither at the front nor in the tail does not occur. */
  lemma NotAtFrontNorInTail(s: string, w: string)
    requires s != [] && !(w <= s) && !Contains(s[1..], w)
    ensures !Contains(s, w)
  {
    if Contains(s, w) {
      var i: nat :| i <= |s| && OccursAt(s, w, i);
      assert i != 0;
      assert s[1..][i - 1..] == s[i..];
      assert OccursAt(s[1..], w, i - 1);
    }
  }

  /** `s.replace(w, '')` for a non-empty `w`: occurrences are removed left to right,
      without overlap. A text without `w` is returned unchanged; otherwise at least
      one whole occurrence goes. */
  function RemoveAll(s: string, w: string): (r: string)
    requires |w| > 0
    ensures |r| <= |s|
    ensures !Contains(s, w) ==> r == s
    ensures Contains(s, w) ==> |r| <= |s| - |w|
    decreases |s|
  {
    if |s| < |w| then s
    else if w <= s then
      assert OccursAt(s, w, 0);
      RemoveAll(s[|w|..], w)
    else
      var rest := RemoveAll(s[1..], w);
      if Contains(s[1..], w) then
        ContainsInTail(s, w);
        [s[0]] + rest
      else
        NotAtFrontNorInTail(s, w);
        assert s == [s[0]] + s[1..];
        [s[0]] + rest
  }

  /** `re.sub(r'\s+', ' ', s)`: every run of whitespace becomes one plain space. */
  function Collapse(s: string): (r: string)
    ensures NoSpaceRuns(r) && OnlyPlainSpaces(r)
    ensures |r| <= |s|
    ensures r == [] <==> s == []
    ensures r != [] ==> (IsSpace(r[0]) <==> IsSpace(s[0]))
  {
    if s == [] then []
    else if IsSpace(s[0]) then [' '] + Collapse(LStrip(s[1..]))
    else [s[0]] + Collapse(s[1..])
  }

  /** Dropping the first character of a collapsed string leaves it collapsed. */
  lemma CleanTail(s: string)
    requires s != [] && NoSpaceRuns(s) && OnlyPlainSpaces(s)
    ensures NoSpaceRuns(s[1..]) && OnlyPlainSpaces(s[1..])
    ensures IsSpace(s[0]) ==> s[0] == ' ' && (s[1..] == [] || !IsSpace(s[1]))
  {
    var t := s[1..];
    forall i | 0 <= i < |t| - 1 ensures !(IsSpace(t[i]) && IsSpace(t[i + 1])) {
      assert t[i] == s[i + 1] && t[i + 1] == s[i + 2];
    }
    forall i | 0 <= i < |t| ensures IsSpace(t[i]) ==> t[i] == ' ' {
      assert t[i] == s[i + 1];
    }
  }

  /** A string whose whitespace is already collapsed is left unchanged, so collapsing is idempotent. */
  lemma {:induction false} CollapseClean(s: string)
    requires NoSpaceRuns(s) && OnlyPlainSpaces(s)
    ensures Collapse(s) == s
  {
    if s != [] {
      var t := s[1..];
      CleanTail(s);
      CollapseClean(t);
      assert s == [s[0]] + t;
      if IsSpace(s[0]) {
        assert t == [] || !IsSpace(t[0]);
        assert LStrip(t) == t;
      }
    }
  }

  lemma CollapseIdempotent(s: string)
    ensures Collapse(Collapse(s)) == Collapse(s)
  {
    CollapseClean(Collapse(s));
  }

  /** `s[:n]` */
  function Take(s: string, n: nat): (r: string)
    ensures |r| <= n && r <= s
    ensures |s| <= n ==> r == s
  {
    if |s| <= n then s else s[..n]
  }

  lemma TakeKeepsClean(s: string, n: nat)
    requires NoSpaceRuns(s) && OnlyPlainSpaces(s)
    ensures NoSpaceRuns(Take(s, n)) && OnlyPlainSpaces(Take(s, n))
  {
  }

  // ------------------------------------------------------------ joining keys

  /** The f-string `f"{a}|{b}|{c}"`. */
  function Join3(a: string, b: string, c: string): string {
    a + "|" + b + "|" + c
  }

  /** In `a + "|" + r` with no `|` in `a`, the first `|` is at index `|a|`. */
  lemma FirstBar(a: string, r: string)
    requires '|' !in a
    ensures (a + "|" + r)[|a|] == '|'
    ensures forall i :: 0 <= i < |a| ==> (a + "|" + r)[i] != '|'
  {
    var x := a + "|" + r;
    forall i | 0 <= i < |a| ensures x[i] != '|' {
      assert x[i] == a[i];
    }
  }

  lemma SplitAtFirstBar(a: string, r: string, a': string, r': string)
    requires '|' !in a && '|' !in a'
    requires a + "|" + r == a' + "|" + r'
    ensures a == a' && r == r'
  {
    var x := a + "|" + r;
    FirstBar(a, r);
    FirstBar(a', r');
    assert |a| == |a'|;
    assert a == x[..|a|] == a';
    assert r == x[|a| + 1..] == r';
  }

  /** Keys joined with `|` separate their parts as long as the first two parts hold no `|`. */
  lemma Join3Injective(a: string, b: string, c: string, a': string, b': string, c': string)
    requires '|' !in a && '|' !in b && '|' !in a' && '|' !in b'
    requires Join3(a, b, c) == Join3(a', b', c')
    ensures a == a' && b == b' && c == c'
  {
    assert Join3(a, b, c) == a + "|" + (b + "|" + c);
    assert Join3(a', b', c') == a' + "|" + (b' + "|" + c');
    SplitAtFirstBar(a, b + "|" + c, a', b' + "|" + c');
    SplitAtFirstBar(b, c, b', c');
  }
}
