/**
  The few JavaScript string built-ins the backend relies on: truthiness of a
  string, `String.prototype.trim`, `toLowerCase`, `split` on one character and
  `Array.prototype.join`.
*/
module JsString {
  import opened Wrappers

  /** The ECMAScript WhiteSpace and LineTerminator code points, which `trim` strips. */
  predicate IsWhitespace(c: char) {
    || c == ' ' || c == '\t' || c == '\n' || c == '\r'
    || c == '\U{000B}' || c == '\U{000C}' || c == '\U{00A0}' || c == '\U{1680}'
    || ('\U{2000}' <= c <= '\U{200A}')
    || c == '\U{2028}' || c == '\U{2029}' || c == '\U{202F}' || c == '\U{205F}'
    || c == '\U{3000}' || c == '\U{FEFF}'
  }

  /** No whitespace at either end. */
  predicate IsTrimmed(s: string) {
    s == [] || (!IsWhitespace(s[0]) && !IsWhitespace(s[|s| - 1]))
  }

  /** `if (x)` on a field that is either undefined or a string: only a non-empty string is truthy. */
  predicate Truthy(x: Option<string>) {
    x.Some? && x.value != []
  }

  function TrimStart(s: string): (r: string)
    ensures |r| <= |s| && r == s[|s| - |r|..]
    ensures forall i :: 0 <= i < |s| - |r| ==> IsWhitespace(s[i])
    ensures r == [] || !IsWhitespace(r[0])
  {
    if s != [] && IsWhitespace(s[0]) then TrimStart(s[1..]) else s
  }

  function TrimEnd(s: string): (r: string)
    ensures |r| <= |s| && r == s[..|r|]
    ensures forall i :: |r| <= i < |s| ==> IsWhitespace(s[i])
    ensures r == [] || !IsWhitespace(r[|r| - 1])
  {
    if s != [] && IsWhitespace(s[|s| - 1]) then TrimEnd(s[..|s| - 1]) else s
  }

  /** `s.trim()`: the longest slice of `s` with no whitespace at either end. */
  function Trim(s: string): (r: string)
    ensures IsTrimmed(r) && |r| <= |s|
  {
    TrimEnd(TrimStart(s))
  }

  /** A trimmed string is its own trim. */
  lemma TrimTrimmed(s: string)
    requires IsTrimmed(s)
    ensures Trim(s) == s
  {
  }

  /** Whitespace in front does not change the trim. */
  lemma TrimLeadingSpace(s: string)
    ensures Trim([' '] + s) == Trim(s)
  {
    assert ([' '] + s)[1..] == s;
  }

  /** Whitespace behind a string that starts with a non-whitespace character does not change the trim. */
  lemma TrimTrailingSpace(s: string)
    requires s != [] && !IsWhitespace(s[0])
    ensures Trim(s + [' ']) == Trim(s)
  {
    var t := s + [' '];
    assert TrimStart(t) == t;
    assert TrimStart(s) == s;
    assert t[..|t| - 1] == s;
  }

  /** A trimmed, non-empty string padded with one space on each side trims back to itself. */
  lemma TrimPadded(s: string)
    requires s != [] && IsTrimmed(s)
    ensures Trim([' '] + (s + [' '])) == s
  {
    TrimLeadingSpace(s + [' ']);
    TrimTrailingSpace(s);
    TrimTrimmed(s);
  }

  /** Trimming only removes characters, so it introduces none. */
  lemma TrimKeepsOut(s: string, c: char)
    requires c !in s
    ensures c !in Trim(s)
  {
    var t := TrimStart(s);
    forall i | 0 <= i < |t| ensures t[i] != c {
      assert t[i] == s[|s| - |t| + i];
    }
    var u := TrimEnd(t);
    forall i | 0 <= i < |u| ensures u[i] != c {
      assert u[i] == t[i];
    }
  }

  /** A string made only of whitespace loses all of it to TrimStart. */
  lemma {:induction false} TrimStartAllWhitespace(s: string)
    requires forall i :: 0 <= i < |s| ==> IsWhitespace(s[i])
    ensures TrimStart(s) == []
  {
    if s != [] {
      assert forall i :: 0 <= i < |s[1..]| ==> s[1..][i] == s[i + 1];
      TrimStartAllWhitespace(s[1..]);
    }
  }

  /** The trim is empty exactly when every character is whitespace. */
  lemma TrimEmptyIff(s: string)
    ensures Trim(s) == [] <==> forall i :: 0 <= i < |s| ==> IsWhitespace(s[i])
  {
    if forall i :: 0 <= i < |s| ==> IsWhitespace(s[i]) {
      TrimStartAllWhitespace(s);
    }
  }

  function LowerChar(c: char): char {
    if 'A' <= c <= 'Z' then (c as int + 32) as char else c
  }

  /** `s.toLowerCase()` on the ASCII letters. */
  function Lower(s: string): (r: string)
    ensures |r| == |s|
    ensures forall i :: 0 <= i < |r| ==> !('A' <= r[i] <= 'Z')
    ensures forall i :: 0 <= i < |r| ==> (IsWhitespace(r[i]) <==> IsWhitespace(s[i]))
  {
    seq(|s|, i requires 0 <= i < |s| => LowerChar(s[i]))
  }

  /** Every character outside A-Z is kept, and every A-Z letter becomes its lower-case letter. */
  lemma LowerValue(s: string)
    ensures forall i :: 0 <= i < |s| && !('A' <= s[i] <= 'Z') ==> Lower(s)[i] == s[i]
    ensures forall i :: 0 <= i < |s| && 'A' <= s[i] <= 'Z' ==> Lower(s)[i] as int == s[i] as int + 32
  {
  }

  /** `s.split(sep)` for a one-character separator: the pieces between separators, always at least one. */
  function Split(s: string, sep: char): (r: seq<string>)
    ensures |r| >= 1
    ensures forall i :: 0 <= i < |r| ==> sep !in r[i]
  {
    if s == [] then [[]]
    else
      var rest := Split(s[1..], sep);
      if s[0] == sep then [[]] + rest
      else [[s[0]] + rest[0]] + rest[1..]
  }

  /** A character other than the separator joins the first piece. */
  lemma SplitCons(c: char, s: string, sep: char)
    requires c != sep
    ensures Split([c] + s, sep) == [[c] + Split(s, sep)[0]] + Split(s, sep)[1..]
  {
    assert ([c] + s)[1..] == s;
  }

  /** `xs.join(sep)`. */
  function Join(xs: seq<string>, sep: string): string {
    if |xs| == 0 then []
    else if |xs| == 1 then xs[0]
    else xs[0] + sep + Join(xs[1..], sep)
  }

  /** A two-character separator is its first character followed by its second. */
  lemma JoinTwoCharSep(xs: seq<string>, a: char, b: char)
    requires |xs| >= 2
    ensures Join(xs, [a, b]) == xs[0] + [a] + ([b] + Join(xs[1..], [a, b]))
  {
    var rest := Join(xs[1..], [a, b]);
    assert Join(xs, [a, b]) == xs[0] + [a, b] + rest;
    assert [a, b] == [a] + [b];
  }

  lemma JoinConsHead(c: char, ys: seq<string>, sep: string)
    requires |ys| >= 1
    ensures Join([[c] + ys[0]] + ys[1..], sep) == [c] + Join(ys, sep)
  {
    var zs := [[c] + ys[0]] + ys[1..];
    assert zs[1..] == ys[1..];
  }

  /** Joining the pieces of a split with the separator gives the string back. */
  lemma {:induction false} JoinSplit(s: string, sep: char)
    ensures Join(Split(s, sep), [sep]) == s
  {
    if s != [] {
      var rest := Split(s[1..], sep);
      JoinSplit(s[1..], sep);
      if s[0] == sep {
        assert ([[]] + rest)[1..] == rest;
        assert s == [sep] + s[1..];
      } else {
        JoinConsHead(s[0], rest, [sep]);
        assert s == [s[0]] + s[1..];
      }
    }
  }

  lemma {:induction false} SplitNoSep(a: string, sep: char)
    requires sep !in a
    ensures Split(a, sep) == [a]
  {
    if a != [] {
      SplitNoSep(a[1..], sep);
      assert a == [a[0]] + a[1..];
    }
  }

  lemma {:induction false} SplitAfterPiece(a: string, sep: char, b: string)
    requires sep !in a
    ensures Split(a + [sep] + b, sep) == [a] + Split(b, sep)
  {
    var s := a + [sep] + b;
    if a == [] {
      assert s[1..] == b;
    } else {
      assert s[1..] == a[1..] + [sep] + b;
      SplitAfterPiece(a[1..], sep, b);
      assert a == [a[0]] + a[1..];
    }
  }

  /** Splitting a join of separator-free pieces gives the pieces back. */
  lemma {:induction false} SplitJoin(xs: seq<string>, sep: char)
    requires |xs| >= 1
    requires forall i :: 0 <= i < |xs| ==> sep !in xs[i]
    ensures Split(Join(xs, [sep]), sep) == xs
  {
    if |xs| == 1 {
      SplitNoSep(xs[0], sep);
    } else {
      SplitJoin(xs[1..], sep);
      SplitAfterPiece(xs[0], sep, Join(xs[1..], [sep]));
      assert xs == [xs[0]] + xs[1..];
    }
  }
}
