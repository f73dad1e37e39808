/** The Python string operations the offline aggregation uses: `strip` (of whitespace
    or of a given character set), `split()` on whitespace, `isalpha`, and the code
    point order that `sorted` applies to strings. */
module PyText {
  import opened Seqs
  import opened Text

  /** `str.isspace` for one character: the characters Python treats as whitespace. */
  predicate IsSpace(c: char) {
    || c == ' ' || c == '\t' || c == '\n' || c == '\r' || c == '\U{B}' || c == '\U{C}'
    || ('\U{1C}' <= c <= '\U{1F}') || c == '\U{85}' || c == '\U{A0}' || c == '\U{1680}'
    || ('\U{2000}' <= c <= '\U{200A}') || c == '\U{2028}' || c == '\U{2029}' || c == '\U{202F}'
    || c == '\U{205F}' || c == '\U{3000}'
  }

  /** `s` with the characters satisfying `p` removed from its start. */
  function TrimStart(s: string, p: char -> bool): (r: string)
    ensures |r| <= |s| && r == s[|s| - |r|..]
    ensures r != [] ==> !p(r[0])
    ensures forall i :: 0 <= i < |s| - |r| ==> p(s[i])
  {
    if s != [] && p(s[0]) then
      var r := TrimStart(s[1..], p);
      assert forall i :: 1 <= i < |s| - |r| ==> s[i] == s[1..][i - 1];
      r
    else s
  }

  /** `s` with the characters satisfying `p` removed from its end. */
  function TrimEnd(s: string, p: char -> bool): (r: string)
    ensures |r| <= |s| && r == s[..|r|]
    ensures r != [] ==> !p(r[|r| - 1])
    ensures forall i :: |r| <= i < |s| ==> p(s[i])
  {
    if s != [] && p(s[|s| - 1]) then
      var r := TrimEnd(s[..|s| - 1], p);
      assert forall i :: |r| <= i < |s| - 1 ==> s[i] == s[..|s| - 1][i];
      r
    else s
  }

  /** `s.strip(chars)`: a contiguous part of `s` that neither starts nor ends with a
      stripped character, everything cut off on either side being one. */
  function StripBy(s: string, p: char -> bool): (r: string)
    ensures var i := |s| - |TrimStart(s, p)|;
      && i + |r| <= |s| && r == s[i..i + |r|]
      && (forall j :: 0 <= j < i ==> p(s[j]))
      && (forall j :: i + |r| <= j < |s| ==> p(s[j]))
    ensures r != [] ==> !p(r[0]) && !p(r[|r| - 1])
  {
    var t := TrimStart(s, p);
    var r := TrimEnd(t, p);
    StripByShape(s, p, t, r);
    r
  }

  /** The postcondition of `StripBy`, from what the two trimming steps promise. */
  lemma StripByShape(s: string, p: char -> bool, t: string, r: string)
    requires |t| <= |s| && t == s[|s| - |t|..]
    requires t != [] ==> !p(t[0])
    requires forall j :: 0 <= j < |s| - |t| ==> p(s[j])
    requires |r| <= |t| && r == t[..|r|]
    requires r != [] ==> !p(r[|r| - 1])
    requires forall j :: |r| <= j < |t| ==> p(t[j])
    ensures var i := |s| - |t|;
      && i + |r| <= |s| && r == s[i..i + |r|]
      && (forall j :: 0 <= j < i ==> p(s[j]))
      && (forall j :: i + |r| <= j < |s| ==> p(s[j]))
    ensures r != [] ==> !p(r[0]) && !p(r[|r| - 1])
  {
    var i := |s| - |t|;
    PrefixOfSuffix(s, i, t, r);
    forall j | i + |r| <= j < |s| ensures p(s[j]) {
      assert s[j] == t[j - i];
    }
  }

  /** A prefix `r` of the suffix `t` of `s` from `i` is the slice of `s` from `i`. */
  lemma PrefixOfSuffix(s: string, i: nat, t: string, r: string)
    requires i <= |s| && t == s[i..] && |r| <= |t| && r == t[..|r|]
    ensures r == s[i..i + |r|]
    ensures forall j :: i + |r| <= j < |s| ==> s[j] == t[j - i]
    ensures r != [] ==> r[0] == t[0]
  {
  }

  function SpaceSelector(): char -> bool {
    (c: char) => IsSpace(c)
  }

  /** `s.strip()`. */
  function Strip(s: string): string {
    StripBy(s, SpaceSelector())
  }

  /** Stripping twice strips nothing more. */
  lemma {:induction false} StripIdempotent(s: string)
    ensures Strip(Strip(s)) == Strip(s)
  {
    var r := Strip(s);
    var p := SpaceSelector();
    if r != [] {
      assert TrimStart(r, p) == r;
      assert TrimEnd(r, p) == r;
    }
  }

  /** The longest prefix of `s` with no separator (a character satisfying `p`). */
  function LeadingWord(s: string, p: char -> bool): (w: string)
    ensures |w| <= |s| && w == s[..|w|]
    ensures forall i :: 0 <= i < |w| ==> !p(w[i])
    ensures |w| < |s| ==> p(s[|w|])
    ensures s != [] && !p(s[0]) ==> w != []
  {
    if s == [] || p(s[0]) then []
    else
      var w := LeadingWord(s[1..], p);
      assert [s[0]] + w == s[..1 + |w|];
      [s[0]] + w
  }

  /** Splitting at separators: the maximal runs of other characters, in order. */
  function WordsBy(s: string, p: char -> bool): seq<string>
    decreases |s|
  {
    if s == [] then []
    else if p(s[0]) then WordsBy(s[1..], p)
    else
      var w := LeadingWord(s, p);
      [w] + WordsBy(s[|w|..], p)
  }

  /** `s.split()`: the maximal runs of non-whitespace characters, in order. */
  function Words(s: string): seq<string> {
    WordsBy(s, SpaceSelector())
  }

  /** Every word is non-empty and free of separators. */
  lemma {:induction false} WordsByShape(s: string, p: char -> bool)
    ensures forall k :: 0 <= k < |WordsBy(s, p)| ==>
      WordsBy(s, p)[k] != [] && forall i :: 0 <= i < |WordsBy(s, p)[k]| ==> !p(WordsBy(s, p)[k][i])
    decreases |s|
  {
    if s != [] {
      if p(s[0]) {
        WordsByShape(s[1..], p);
      } else {
        WordsByShape(s[|LeadingWord(s, p)|..], p);
      }
    }
  }

  /** A text with no separator splits into at most itself. */
  lemma {:induction false} WordsOfWord(s: string, p: char -> bool)
    requires forall i :: 0 <= i < |s| ==> !p(s[i])
    ensures WordsBy(s, p) == if s == [] then [] else [s]
  {
    if s != [] {
      assert LeadingWord(s, p) == s;
      assert s[|s|..] == [];
    }
  }

  // ---------------------------------------------------------------------------
  // Occurrences of one text inside another.

  /** A stripped text lies inside the text. */
  lemma StripByAt(s: string, p: char -> bool) returns (k: nat)
    ensures At(s, k, StripBy(s, p))
  {
    k := |s| - |TrimStart(s, p)|;
    SliceAt(s, k, StripBy(s, p));
  }

  /** Stripping twice leaves a part of the text. */
  lemma StripTwiceAt(s: string, p: char -> bool, q: char -> bool) returns (k: nat)
    ensures At(s, k, StripBy(StripBy(s, p), q))
  {
    var once := StripBy(s, p);
    var twice := StripBy(once, q);
    var j := StripByAt(s, p);
    var l := StripByAt(once, q);
    k := AtChain(s, j, once, l, twice);
  }

  /** A stripped part of a text lies wherever the text does. */
  lemma StripByWithin(a: string, off: nat, x: string, p: char -> bool) returns (k: nat)
    requires At(a, off, x)
    ensures At(a, k, StripBy(x, p))
  {
    var j := StripByAt(x, p);
    k := AtChain(a, off, x, j, StripBy(x, p));
  }

  /** A word of a split lies inside the text. */
  lemma {:induction false} WordAt(s: string, p: char -> bool, w: string) returns (k: nat)
    requires w in WordsBy(s, p)
    ensures At(s, k, w)
    decreases |s|
  {
    if p(s[0]) {
      var j := WordAt(s[1..], p, w);
      AtInSuffix(s, 1, j, w);
      k := 1 + j;
    } else {
      var lead := LeadingWord(s, p);
      assert w == lead || w in WordsBy(s[|lead|..], p);
      if w == lead {
        SliceAt(s, 0, lead);
        k := 0;
      } else {
        var j := WordAt(s[|lead|..], p, w);
        AtInSuffix(s, |lead|, j, w);
        k := |lead| + j;
      }
    }
  }

  /** `str.isalpha` for one character, for the scripts the data is written in: ASCII
      letters and the Latin-1 and Latin Extended-A/B letters (Czech included). */
  predicate IsAlphaChar(c: char) {
    || ('A' <= c <= 'Z') || ('a' <= c <= 'z')
    || c == '\U{AA}' || c == '\U{B5}' || c == '\U{BA}'
    || ('\U{C0}' <= c <= '\U{24F}' && c != '\U{D7}' && c != '\U{F7}')
  }

  /** `s.isalpha()`: non-empty and made of letters only. */
  predicate IsAlpha(s: string) {
    s != [] && forall i :: 0 <= i < |s| ==> IsAlphaChar(s[i])
  }

  // ---------------------------------------------------------------------------
  // The order of `sorted` on strings.

  /** Python's `a < b` on strings: code point order, a proper prefix first. */
  predicate StrLess(a: string, b: string)
    decreases |a|
  {
    if a == [] then b != []
    else if b == [] then false
    else if a[0] != b[0] then a[0] < b[0]
    else StrLess(a[1..], b[1..])
  }

  lemma {:induction false} StrLessIrreflexive(a: string)
    ensures !StrLess(a, a)
    decreases |a|
  {
    if a != [] {
      StrLessIrreflexive(a[1..]);
    }
  }

  lemma {:induction false} StrLessTransitive(a: string, b: string, c: string)
    requires StrLess(a, b) && StrLess(b, c)
    ensures StrLess(a, c)
    decreases |a|
  {
    if a != [] && a[0] == b[0] && b[0] == c[0] {
      StrLessTransitive(a[1..], b[1..], c[1..]);
    }
  }

  /** Any two different strings are ordered one way, and never both ways. */
  lemma {:induction false} StrLessTotal(a: string, b: string)
    ensures a != b ==> StrLess(a, b) || StrLess(b, a)
    ensures !(StrLess(a, b) && StrLess(b, a))
    decreases |a|
  {
    if a != [] && b != [] && a[0] == b[0] {
      StrLessTotal(a[1..], b[1..]);
      assert a == [a[0]] + a[1..] && b == [b[0]] + b[1..];
    }
  }

  /** Every element comes before every later one, so there are no duplicates. */
  predicate StrictlySorted(s: seq<string>) {
    forall i, j :: 0 <= i < j < |s| ==> StrLess(s[i], s[j])
  }

  lemma {:induction false} SortedDistinct(s: seq<string>)
    requires StrictlySorted(s)
    ensures Distinct(s)
  {
    forall i, j | 0 <= i < j < |s| ensures s[i] != s[j] {
      StrLessIrreflexive(s[i]);
    }
  }

  /** A head below every element of a sorted tail gives a sorted list. */
  lemma {:induction false} ConsSorted(x: string, s: seq<string>)
    requires StrictlySorted(s)
    requires forall y :: y in s ==> StrLess(x, y)
    ensures StrictlySorted([x] + s)
  {
    var r := [x] + s;
    forall i, j | 0 <= i < j < |r| ensures StrLess(r[i], r[j]) {
      assert r[j] == s[j - 1];
      if i > 0 {
        assert r[i] == s[i - 1];
      }
    }
  }

  /** Inserting into a sorted list of distinct strings; a present string is not
      added again. */
  function InsertSorted(x: string, s: seq<string>): (r: seq<string>)
    requires StrictlySorted(s)
    ensures StrictlySorted(r)
    ensures forall y :: y in r <==> y in s || y == x
    decreases |s|
  {
    if s == [] then [x]
    else if x == s[0] then s
    else
      assert StrictlySorted(s[1..]) by {
        forall i, j | 0 <= i < j < |s[1..]| ensures StrLess(s[1..][i], s[1..][j]) {
          assert s[1..][i] == s[i + 1] && s[1..][j] == s[j + 1];
        }
      }
      assert forall y :: y in s <==> y == s[0] || y in s[1..] by {
        assert s == [s[0]] + s[1..];
      }
      StrLessTotal(x, s[0]);
      if StrLess(x, s[0]) then
        assert forall y :: y in s ==> StrLess(x, y) by {
          forall y | y in s ensures StrLess(x, y) {
            if y != s[0] {
              var j :| 0 < j < |s| && s[j] == y;
              StrLessTransitive(x, s[0], y);
            }
          }
        }
        ConsSorted(x, s);
        [x] + s
      else
        var rest := InsertSorted(x, s[1..]);
        assert forall y :: y in rest ==> StrLess(s[0], y) by {
          forall y | y in rest ensures StrLess(s[0], y) {
            if y != x {
              var j :| 0 <= j < |s[1..]| && s[1..][j] == y;
              assert s[1..][j] == s[j + 1];
            }
          }
        }
        ConsSorted(s[0], rest);
        [s[0]] + rest
  }

  /** Two sorted lists with the same elements are the same list: the sorted order of
      a set does not depend on how the set was enumerated. */
  lemma {:induction false} SortedUnique(a: seq<string>, b: seq<string>)
    requires StrictlySorted(a) && StrictlySorted(b)
    requires forall y :: y in a <==> y in b
    ensures a == b
    decreases |a|
  {
    if a != [] {
      assert a[0] in b;
    }
    if b != [] {
      assert b[0] in a;
    }
    if a != [] && b != [] {
      if a[0] != b[0] {
        var i :| 0 <= i < |b| && b[i] == a[0];
        var j :| 0 <= j < |a| && a[j] == b[0];
        StrLessTotal(a[0], b[0]);
      }
      SortedDistinct(a);
      SortedDistinct(b);
      forall y ensures y in a[1..] <==> y in b[1..] {
        assert y in a <==> y == a[0] || y in a[1..] by { assert a == [a[0]] + a[1..]; }
        assert y in b <==> y == b[0] || y in b[1..] by { assert b == [b[0]] + b[1..]; }
        if y in a[1..] {
          var k :| 0 <= k < |a[1..]| && a[1..][k] == y;
          assert a[k + 1] == y;
        }
        if y in b[1..] {
          var k :| 0 <= k < |b[1..]| && b[1..][k] == y;
          assert b[k + 1] == y;
        }
      }
      assert StrictlySorted(a[1..]) by {
        forall i, j | 0 <= i < j < |a[1..]| ensures StrLess(a[1..][i], a[1..][j]) {
          assert a[1..][i] == a[i + 1] && a[1..][j] == a[j + 1];
        }
      }
      assert StrictlySorted(b[1..]) by {
        forall i, j | 0 <= i < j < |b[1..]| ensures StrLess(b[1..][i], b[1..][j]) {
          assert b[1..][i] == b[i + 1] && b[1..][j] == b[j + 1];
        }
      }
      SortedUnique(a[1..], b[1..]);
      assert a == [a[0]] + a[1..] && b == [b[0]] + b[1..];
    }
  }

  /** `sorted(list(s))` for a set of strings: the set's elements in ascending order,
      each once. */
  method SortedList(s: set<string>) returns (r: seq<string>)
    ensures StrictlySorted(r)
    ensures forall y :: y in r <==> y in s
  {
    r := [];
    var rest := s;
    while rest != {}
      invariant StrictlySorted(r)
      invariant forall y :: y in s <==> y in r || y in rest
      decreases rest
    {
      var x :| x in rest;
      r := InsertSorted(x, r);
      rest := rest - {x};
    }
  }
}
