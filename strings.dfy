/** The Python string and list operations the plugin relies on, with Python's own semantics. */
module Strings {

  /** `s.startswith(p)` */
  predicate StartsWith(s: string, p: string)
  {
    |p| <= |s| && s[..|p|] == p
  }

  /** `s.endswith(p)` */
  predicate EndsWith(s: string, p: string)
  {
    |p| <= |s| && s[|s| - |p|..] == p
  }

  /** `p` occurs in `s` at position `i`. */
  predicate InfixAt(s: string, p: string, i: int)
  {
    0 <= i <= |s| - |p| && s[i..i + |p|] == p
  }

  /** `p in s` for strings: `p` occurs at some position of `s`. */
  predicate HasInfix(s: string, p: string)
  {
    exists i :: 0 <= i <= |s| && InfixAt(s, p, i)
  }

  /** `s.rstrip(chars)`: drops trailing characters that belong to the SET `chars`;
      it is not suffix removal. */
  function RStrip(s: string, chars: string): (r: string)
    ensures |r| <= |s| && r == s[..|r|]
    ensures r != [] ==> r[|r| - 1] !in chars
    ensures forall i :: |r| <= i < |s| ==> s[i] in chars
  {
    if s != [] && s[|s| - 1] in chars then RStrip(s[..|s| - 1], chars) else s
  }

  /** Replaces every '\n' by ' ': `' '.join(text.split('\n'))`. */
  function JoinLines(text: string): (r: string)
    ensures |r| == |text|
    ensures forall i :: 0 <= i < |text| ==> r[i] == (if text[i] == '\n' then ' ' else text[i])
  {
    if text == [] then []
    else [if text[0] == '\n' then ' ' else text[0]] + JoinLines(text[1..])
  }

  /** `s.split(sep)[0]`: the text before the first `sep`. */
  function BeforeFirst(s: string, sep: char): (r: string)
    ensures |r| <= |s| && r == s[..|r|] && sep !in r
    ensures |r| < |s| ==> s[|r|] == sep
  {
    if s == [] || s[0] == sep then [] else [s[0]] + BeforeFirst(s[1..], sep)
  }

  /** `s.split(sep)`, as a sequence of fields (never empty). */
  function Split(s: string, sep: char): (r: seq<string>)
    ensures |r| >= 1
    ensures r[0] == BeforeFirst(s, sep)
    ensures sep !in s ==> r == [s]
    decreases |s|
  {
    var head := BeforeFirst(s, sep);
    if |head| == |s| then [s] else [head] + Split(s[|head| + 1..], sep)
  }

  /** What lies before the first separator of `a + [sep] + rest` is `a`. */
  lemma {:induction false} BeforeFirstSeparator(a: string, sep: char, rest: string)
    requires sep !in a
    ensures BeforeFirst(a + [sep] + rest, sep) == a
  {
    if a != [] {
      assert (a + [sep] + rest)[1..] == a[1..] + [sep] + rest;
      BeforeFirstSeparator(a[1..], sep, rest);
    }
  }

  /** Splitting after a field without separators peels that field off. */
  lemma SplitAfterField(a: string, sep: char, rest: string)
    requires sep !in a
    ensures Split(a + [sep] + rest, sep) == [a] + Split(rest, sep)
  {
    BeforeFirstSeparator(a, sep, rest);
    assert (a + [sep] + rest)[|a| + 1..] == rest;
  }

  /** A text without the separator is a single field. */
  lemma FieldWithoutSeparator(s: string, sep: char)
    requires sep !in s
    ensures BeforeFirst(s, sep) == s
  {
  }

  /** The fields joined back with the separator between them. */
  function JoinWith(fields: seq<string>, sep: char): string
    requires |fields| >= 1
    decreases |fields|
  {
    if |fields| == 1 then fields[0] else fields[0] + [sep] + JoinWith(fields[1..], sep)
  }

  /** `sep.join(s.split(sep)) == s`, and no field holds the separator. */
  lemma {:induction false} SplitJoin(s: string, sep: char)
    ensures JoinWith(Split(s, sep), sep) == s
    ensures forall i :: 0 <= i < |Split(s, sep)| ==> sep !in Split(s, sep)[i]
    decreases |s|
  {
    var head := BeforeFirst(s, sep);
    if |head| < |s| {
      var tail := s[|head| + 1..];
      assert s == head + [sep] + tail;
      SplitJoin(tail, sep);
      var fields := Split(s, sep);
      assert fields == [head] + Split(tail, sep);
      assert fields[1..] == Split(tail, sep);
      forall i | 0 <= i < |fields| ensures sep !in fields[i] {
        if i > 0 {
          assert fields[i] == Split(tail, sep)[i - 1];
        }
      }
    }
  }

  /** `s.replace(p, q)` for a non-empty pattern: every non-overlapping occurrence of `p`,
      scanning left to right, becomes `q`. */
  function Replace(s: string, p: string, q: string): (r: string)
    requires p != []
    decreases |s|
  {
    if |s| < |p| then s
    else if s[..|p|] == p then q + Replace(s[|p|..], p, q)
    else [s[0]] + Replace(s[1..], p, q)
  }

  /** A text that does not mention `p` is left as it is. */
  lemma {:induction false} ReplaceWithoutPattern(s: string, p: string, q: string)
    requires p != [] && !HasInfix(s, p)
    ensures Replace(s, p, q) == s
    decreases |s|
  {
    if |s| >= |p| {
      assert !InfixAt(s, p, 0);
      if HasInfix(s[1..], p) {
        var i :| 0 <= i <= |s[1..]| && InfixAt(s[1..], p, i);
        assert InfixAt(s, p, i + 1);
        assert false;
      }
      ReplaceWithoutPattern(s[1..], p, q);
    }
  }

  /** Every text that mentioned `p` mentions `q` after the replacement. */
  lemma {:induction false} ReplaceIntroduces(s: string, p: string, q: string)
    requires p != [] && HasInfix(s, p)
    ensures HasInfix(Replace(s, p, q), q)
    decreases |s|
  {
    var i :| 0 <= i <= |s| && InfixAt(s, p, i);
    if s[..|p|] == p {
      assert InfixAt(q + Replace(s[|p|..], p, q), q, 0);
    } else {
      assert i > 0;
      assert InfixAt(s[1..], p, i - 1);
      ReplaceIntroduces(s[1..], p, q);
      var t := Replace(s[1..], p, q);
      var j :| 0 <= j <= |t| && InfixAt(t, q, j);
      assert InfixAt([s[0]] + t, q, j + 1);
    }
  }

  /** `xs.remove(x)` behind an `x in xs` test: Python's `list.remove` drops the first
      occurrence only. */
  function RemoveFirst(xs: seq<string>, x: string): (r: seq<string>)
    ensures multiset(r) == multiset(xs) - multiset{x}
    ensures x in xs ==> |r| == |xs| - 1
    ensures x !in xs ==> r == xs
  {
    if xs == [] then []
    else
      assert xs == [xs[0]] + xs[1..];
      if xs[0] == x then xs[1..]
      else [xs[0]] + RemoveFirst(xs[1..], x)
  }
}
