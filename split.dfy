/**
 Python's `str.split()` called without a separator: the string is cut at runs
 of whitespace and empty pieces are dropped. The review filter of the batch
 driver counts words this way.
 */
module PythonSplit {

  /** The characters CPython's `str.isspace` accepts (the set `str.split()` cuts at). */
  predicate IsSpace(c: char) {
    || c == ' '
    || ('\t' <= c <= '\r')                    // tab, line feed, vertical tab, form feed, carriage return
    || ('\U{1c}' <= c <= '\U{1f}')            // file, group, record and unit separators
    || c == '\U{85}' || c == '\U{a0}' || c == '\U{1680}'
    || ('\U{2000}' <= c <= '\U{200a}')
    || c == '\U{2028}' || c == '\U{2029}' || c == '\U{202f}' || c == '\U{205f}' || c == '\U{3000}'
  }

  /** True when `w` holds no whitespace character. */
  predicate NoSpace(w: string) {
    forall i :: 0 <= i < |w| ==> !IsSpace(w[i])
  }

  /** The length of the run of non-whitespace characters at the start of `s`. */
  function WordEnd(s: string): (k: nat)
    ensures k <= |s| && NoSpace(s[..k])
    ensures k < |s| ==> IsSpace(s[k])
  {
    if s == [] || IsSpace(s[0]) then 0 else 1 + WordEnd(s[1..])
  }

  /** The pieces of `s` between runs of whitespace, in order. */
  function Split(s: string): seq<string>
    decreases |s|
  {
    if s == [] then []
    else if IsSpace(s[0]) then Split(s[1..])
    else
      var k := WordEnd(s);
      [s[..k]] + Split(s[k..])
  }

  /** Every piece is a non-empty run of non-whitespace characters. */
  lemma {:induction false} SplitPieces(s: string)
    ensures forall j :: 0 <= j < |Split(s)| ==> Split(s)[j] != [] && NoSpace(Split(s)[j])
    decreases |s|
  {
    if s != [] {
      if IsSpace(s[0]) {
        SplitPieces(s[1..]);
      } else {
        SplitPieces(s[WordEnd(s)..]);
      }
    }
  }

  /** `len(s.split())`. */
  function WordCount(s: string): nat {
    |Split(s)|
  }

  /** A non-empty word without whitespace splits into itself. */
  lemma SplitWord(w: string)
    requires w != [] && NoSpace(w)
    ensures Split(w) == [w]
  {
    WordEndAll(w);
    assert w[..|w|] == w;
  }

  lemma {:induction false} WordEndAll(w: string)
    requires NoSpace(w)
    ensures WordEnd(w) == |w|
  {
    if w != [] {
      WordEndAll(w[1..]);
    }
  }

  /** A string of whitespace only splits into nothing. */
  lemma {:induction false} SplitBlank(s: string)
    requires forall i :: 0 <= i < |s| ==> IsSpace(s[i])
    ensures Split(s) == []
  {
    if s != [] {
      SplitBlank(s[1..]);
    }
  }

  /**
   A whitespace character separates: what lies on either side splits on its
   own. With SplitWord and SplitBlank this determines Split on every string.
   */
  lemma {:induction false} SplitAtSpace(a: string, c: char, b: string)
    requires IsSpace(c)
    ensures Split(a + [c] + b) == Split(a) + Split(b)
    decreases |a|, 1
  {
    if a == [] {
      assert a + [c] + b == [c] + b;
      SplitSkip(c, b);
    } else if IsSpace(a[0]) {
      SplitAtSpaceAfterSpace(a, c, b);
    } else {
      SplitAtSpaceAfterWord(a, c, b);
    }
  }

  /** SplitAtSpace when `a` starts with whitespace. */
  lemma {:induction false} SplitAtSpaceAfterSpace(a: string, c: char, b: string)
    requires IsSpace(c) && a != [] && IsSpace(a[0])
    ensures Split(a + [c] + b) == Split(a) + Split(b)
    decreases |a|, 0
  {
    assert a + [c] + b == [a[0]] + (a[1..] + [c] + b);
    assert a == [a[0]] + a[1..];
    SplitSkip(a[0], a[1..] + [c] + b);
    SplitSkip(a[0], a[1..]);
    SplitAtSpace(a[1..], c, b);
  }

  /** SplitAtSpace when `a` starts with a word. */
  lemma {:induction false} SplitAtSpaceAfterWord(a: string, c: char, b: string)
    requires IsSpace(c) && a != [] && !IsSpace(a[0])
    ensures Split(a + [c] + b) == Split(a) + Split(b)
    decreases |a|, 0
  {
    var k := WordEnd(a);
    SplitLeadingWord(a, c, b);
    SplitAtSpace(a[k..], c, b);
    assert Split(a + [c] + b) == [a[..k]] + (Split(a[k..]) + Split(b));
  }

  /** A leading whitespace character is skipped. */
  lemma SplitSkip(c: char, t: string)
    requires IsSpace(c)
    ensures Split([c] + t) == Split(t)
  {
    assert ([c] + t)[1..] == t;
  }

  /** When `a` starts with a word, so does `a + [c] + b`, and it is the same word. */
  lemma SplitLeadingWord(a: string, c: char, b: string)
    requires IsSpace(c) && a != [] && !IsSpace(a[0])
    ensures var k := WordEnd(a);
      && 0 < k
      && Split(a + [c] + b) == [a[..k]] + Split(a[k..] + [c] + b)
      && Split(a) == [a[..k]] + Split(a[k..])
  {
    var s, k := a + [c] + b, WordEnd(a);
    WordEndPrefix(a, [c] + b);
    assert a + [c] + b == a + ([c] + b);
    assert s[..k] == a[..k];
    assert s[k..] == a[k..] + [c] + b;
  }

  /** A word that ends inside `a`, or where a whitespace follows `a`, ends at the same place in `a + t`. */
  lemma {:induction false} WordEndPrefix(a: string, t: string)
    requires t != [] && IsSpace(t[0])
    ensures WordEnd(a + t) == WordEnd(a)
  {
    if a != [] {
      assert (a + t)[0] == a[0];
      assert (a + t)[1..] == a[1..] + t;
      WordEndPrefix(a[1..], t);
    }
  }
}
