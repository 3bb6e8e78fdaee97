/**
 * The three ECMAScript string primitives the summarizer is built from:
 * `String.prototype.trim`, `String.prototype.split` with a one-character
 * separator and `Array.prototype.join`, over strings of `char`.
 */
module JsText {

  /** ECMAScript LineTerminator: LF, CR, LINE SEPARATOR, PARAGRAPH SEPARATOR.
      A regular-expression `.` matches every character except these. */
  const LineTerminators: set<char> := {'\n', '\r', '\U{2028}', '\U{2029}'}

  /** ECMAScript WhiteSpace: TAB, VT, FF, SPACE, NO-BREAK SPACE, the byte order
      mark and the Unicode "Zs" space separators. */
  const WhiteSpaces: set<char> := {
    '\t', '\U{B}', '\U{C}', ' ', '\U{A0}', '\U{FEFF}', '\U{1680}',
    '\U{2000}', '\U{2001}', '\U{2002}', '\U{2003}', '\U{2004}', '\U{2005}',
    '\U{2006}', '\U{2007}', '\U{2008}', '\U{2009}', '\U{200A}',
    '\U{202F}', '\U{205F}', '\U{3000}'
  }

  predicate IsLineTerminator(c: char)
  {
    c in LineTerminators
  }

  /** The one set of characters that both `trim()` strips and the regular
      expression class `\s` matches: WhiteSpace and LineTerminator. */
  predicate IsSpace(c: char)
  {
    c in WhiteSpaces || c in LineTerminators
  }

  /** A string that `trim()` reduces to the empty string. */
  predicate IsBlank(s: string)
  {
    forall i :: 0 <= i < |s| ==> IsSpace(s[i])
  }

  lemma BlankCons(c: char, s: string)
    ensures IsBlank([c] + s) <==> IsSpace(c) && IsBlank(s)
  {
    var t := [c] + s;
    assert t[0] == c;
    assert forall i :: 0 <= i < |s| ==> t[i + 1] == s[i];
  }

  // ---------------------------------------------------------------------
  // trim()

  /** The first index at or after `i` that does not hold a space (or `|s|`):
      where the text that `trim()` keeps begins. */
  function TrimStartIndex(s: string, i: nat): (lo: nat)
    requires i <= |s|
    ensures i <= lo <= |s|
    ensures forall j :: i <= j < lo ==> IsSpace(s[j])
    ensures lo < |s| ==> !IsSpace(s[lo])
    decreases |s| - i
  {
    if i == |s| || !IsSpace(s[i]) then i else TrimStartIndex(s, i + 1)
  }

  /** The end of `s[lo..hi]` once its trailing spaces are dropped: where the
      text that `trim()` keeps ends. */
  function TrimEndIndex(s: string, lo: nat, hi: nat): (end: nat)
    requires lo <= hi <= |s|
    ensures lo <= end <= hi
    ensures forall j :: end <= j < hi ==> IsSpace(s[j])
    ensures lo < end ==> !IsSpace(s[end - 1])
    decreases hi
  {
    if hi == lo || !IsSpace(s[hi - 1]) then hi else TrimEndIndex(s, lo, hi - 1)
  }

  /** A string with no space at either end. */
  predicate IsTrimmed(m: string)
  {
    m == [] || (!IsSpace(m[0]) && !IsSpace(m[|m| - 1]))
  }

  /** `s.trim()`: `s` without its leading and trailing spaces. The result is
      empty exactly when `s` is blank, and has no space at either end. */
  function Trim(s: string): (r: string)
    ensures |r| <= |s|
    ensures r == [] <==> IsBlank(s)
    ensures IsTrimmed(r)
  {
    var lo := TrimStartIndex(s, 0);
    var hi := TrimEndIndex(s, lo, |s|);
    assert lo < |s| ==> lo < hi;
    s[lo..hi]
  }

  /** The independent characterisation of `trim()`: padding a string that
      has no space at either end with blanks on both sides and trimming gives
      the string back. */
  lemma TrimOfPadded(a: string, m: string, b: string)
    requires IsBlank(a) && IsBlank(b) && IsTrimmed(m)
    ensures Trim(a + m + b) == m
  {
    var s := a + m + b;
    if m == [] {
      assert IsBlank(s) by {
        forall j | 0 <= j < |s| ensures IsSpace(s[j]) {
          if j < |a| { assert s[j] == a[j]; } else { assert s[j] == b[j - |a|]; }
        }
      }
    } else {
      forall j | 0 <= j < |a| ensures IsSpace(s[j]) { assert s[j] == a[j]; }
      assert s[|a|] == m[0];
      var lo := TrimStartIndex(s, 0);
      assert lo == |a|;
      var hi := |a| + |m|;
      forall j | hi <= j < |s| ensures IsSpace(s[j]) { assert s[j] == b[j - hi]; }
      assert s[hi - 1] == m[|m| - 1];
      assert TrimEndIndex(s, lo, |s|) == hi;
      assert s[lo..hi] == m;
    }
  }

  /** `trim()` is idempotent. */
  lemma TrimIdempotent(s: string)
    ensures Trim(Trim(s)) == Trim(s)
  {
    var m := Trim(s);
    assert [] + m + [] == m;
    TrimOfPadded([], m, []);
  }

  /** Every character of `s.trim()` is a character of `s`. */
  lemma TrimChars(s: string, c: char)
    requires c in Trim(s)
    ensures c in s
  {
    var lo := TrimStartIndex(s, 0);
    var i :| 0 <= i < |Trim(s)| && Trim(s)[i] == c;
    assert s[lo + i] == c;
  }

  /** Trimming a string that ends in a non-space keeps that last character
      at its end. */
  lemma TrimKeepsLast(s: string)
    requires s != [] && !IsSpace(s[|s| - 1])
    ensures Trim(s) != [] && Trim(s)[|Trim(s)| - 1] == s[|s| - 1]
  {
    var lo := TrimStartIndex(s, 0);
    assert TrimEndIndex(s, lo, |s|) == |s|;
  }

  /** A space after a final non-space does not change the trim. */
  lemma TrimIgnoresTrailingSpace(s: string, c: char)
    requires s != [] && !IsSpace(s[|s| - 1]) && IsSpace(c)
    ensures Trim(s + [c]) == Trim(s)
  {
    var t := s + [c];
    var lo := TrimStartIndex(s, 0);
    assert lo < |s|;
    forall j | 0 <= j < lo ensures IsSpace(t[j]) { assert t[j] == s[j]; }
    assert t[lo] == s[lo];
    assert TrimStartIndex(t, 0) == lo;
    assert TrimEndIndex(s, lo, |s|) == |s|;
    assert t[|s| - 1] == s[|s| - 1];
    assert TrimEndIndex(t, lo, |s|) == |s|;
    assert TrimEndIndex(t, lo, |t|) == |s|;
    assert t[lo..|s|] == s[lo..|s|];
  }

  // ---------------------------------------------------------------------
  // split('\n') and join(sep)

  /** `s.split('\n')`: the pieces between line feeds, in order. There is
      always at least one piece; the empty string gives `[""]`. */
  function Split(s: string): (parts: seq<string>)
    ensures |parts| >= 1
    ensures forall i :: 0 <= i < |parts| ==> '\n' !in parts[i]
  {
    if s == [] then [[]]
    else
      var rest := Split(s[1..]);
      if s[0] == '\n' then [[]] + rest
      else [[s[0]] + rest[0]] + rest[1..]
  }

  /** `parts.join(sep)`: the empty array gives the empty string, one element
      gives that element, and `sep` stands between neighbours. */
  function Join(parts: seq<string>, sep: string): string
  {
    if parts == [] then []
    else if |parts| == 1 then parts[0]
    else parts[0] + sep + Join(parts[1..], sep)
  }

  /** The joined text starts with the first element. */
  lemma JoinStartsWithFirst(parts: seq<string>, sep: string)
    requires parts != []
    ensures parts[0] <= Join(parts, sep)
  {
  }

  /** A character that occurs in neither the elements nor the separator does
      not occur in the joined text. */
  lemma {:induction false} JoinAvoids(parts: seq<string>, sep: string, c: char)
    requires forall i :: 0 <= i < |parts| ==> c !in parts[i]
    requires c !in sep
    ensures c !in Join(parts, sep)
  {
    if |parts| > 1 {
      JoinAvoids(parts[1..], sep, c);
    }
  }

  /** Joining with `'\n'` undoes the split. */
  lemma {:induction false} JoinSplit(s: string)
    ensures Join(Split(s), "\n") == s
  {
    if s != [] {
      var rest := Split(s[1..]);
      JoinSplit(s[1..]);
      if s[0] == '\n' {
        assert ([[]] + rest)[1..] == rest;
      } else if |rest| > 1 {
        var parts := [[s[0]] + rest[0]] + rest[1..];
        assert parts[1..] == rest[1..];
        assert Join(rest, "\n") == rest[0] + "\n" + Join(rest[1..], "\n");
      }
    }
  }

  /** A piece without line feeds splits into itself. */
  lemma {:induction false} SplitLine(s: string)
    requires '\n' !in s
    ensures Split(s) == [s]
  {
    if s != [] {
      SplitLine(s[1..]);
      assert [s[0]] + s[1..] == s;
    }
  }

  /** One unfolding of `Split` on a string given as its first character and
      the rest. */
  lemma SplitCons(c: char, t: string)
    ensures Split([c] + t) ==
      if c == '\n' then [[]] + Split(t) else [[c] + Split(t)[0]] + Split(t)[1..]
  {
    assert ([c] + t)[0] == c && ([c] + t)[1..] == t;
  }

  /** A line feed between two texts splits them apart: the pieces of the
      whole are the pieces of the first followed by the pieces of the second. */
  lemma {:induction false} SplitAround(a: string, b: string)
    ensures Split(a + "\n" + b) == Split(a) + Split(b)
  {
    if a == [] {
      assert a + "\n" + b == ['\n'] + b;
      SplitCons('\n', b);
    } else {
      var c, tail := a[0], a[1..] + "\n" + b;
      assert a + "\n" + b == [c] + tail;
      assert a == [c] + a[1..];
      SplitAround(a[1..], b);
      SplitCons(c, tail);
      SplitCons(c, a[1..]);
      PrependPieces(c, Split(a[1..]), Split(b));
    }
  }

  /** The list algebra behind `SplitAround`: adding a character in front of
      the pieces of `ra + rb` is adding it in front of the pieces of `ra`. */
  lemma PrependPieces(c: char, ra: seq<string>, rb: seq<string>)
    requires |ra| >= 1
    ensures [[]] + (ra + rb) == ([[]] + ra) + rb
    ensures [[c] + (ra + rb)[0]] + (ra + rb)[1..] == ([[c] + ra[0]] + ra[1..]) + rb
  {
    assert (ra + rb)[0] == ra[0];
    assert (ra + rb)[1..] == ra[1..] + rb;
  }

  /** Splitting undoes joining with `'\n'`, for pieces without line feeds. */
  lemma {:induction false} SplitJoin(parts: seq<string>)
    requires parts != []
    requires forall i :: 0 <= i < |parts| ==> '\n' !in parts[i]
    ensures Split(Join(parts, "\n")) == parts
  {
    SplitLine(parts[0]);
    if |parts| > 1 {
      SplitJoin(parts[1..]);
      SplitAround(parts[0], Join(parts[1..], "\n"));
      assert [parts[0]] + parts[1..] == parts;
    }
  }
}
