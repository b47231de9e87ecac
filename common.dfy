/** Shared vocabulary: optional values, bytes, order-preserving sequence
    operations and the two whitespace notions the program relies on
    (JavaScript's String.prototype.trim and Python's str.strip). */
module Common {

  datatype Option<T> = None | Some(value: T) {
    function GetOr(default: T): T {
      match this
      case Some(v) => v
      case None => default
    }
  }

  newtype byte = x: int | 0 <= x < 256

  // ---------------------------------------------------------------------
  // Order-preserving sequence operations (Array.prototype.filter, flattening)
  // ---------------------------------------------------------------------

  /** The elements of `s` that satisfy `p`, in their original order. */
  function Filter<T>(s: seq<T>, p: T -> bool): (r: seq<T>)
    ensures |r| <= |s|
    ensures forall i :: 0 <= i < |r| ==> p(r[i]) && r[i] in s
    ensures forall i :: 0 <= i < |s| && p(s[i]) ==> s[i] in r
  {
    if s == [] then [] else (if p(s[0]) then [s[0]] else []) + Filter(s[1..], p)
  }

  /** How many positions of `s` satisfy `p`. */
  function CountWhere<T>(s: seq<T>, p: T -> bool): nat
  {
    if s == [] then 0 else (if p(s[0]) then 1 else 0) + CountWhere(s[1..], p)
  }

  /** `r` can be obtained from `s` by deleting elements, without reordering. */
  ghost predicate IsSubsequence<T>(r: seq<T>, s: seq<T>)
    decreases |s|
  {
    r == [] || (s != [] && ((r[0] == s[0] && IsSubsequence(r[1..], s[1..])) || IsSubsequence(r, s[1..])))
  }

  lemma {:induction false} FilterAppend<T>(a: seq<T>, b: seq<T>, p: T -> bool)
    ensures Filter(a + b, p) == Filter(a, p) + Filter(b, p)
  {
    if a != [] {
      assert (a + b)[0] == a[0];
      assert (a + b)[1..] == a[1..] + b;
      FilterAppend(a[1..], b, p);
    } else {
      assert a + b == b;
    }
  }

  /** A filter keeps its survivors in order: it is a subsequence of its input. */
  lemma {:induction false} FilterIsSubsequence<T>(s: seq<T>, p: T -> bool)
    ensures IsSubsequence(Filter(s, p), s)
  {
    if s != [] {
      FilterIsSubsequence(s[1..], p);
      var r := Filter(s, p);
      if p(s[0]) {
        assert r[0] == s[0] && r[1..] == Filter(s[1..], p);
      } else {
        assert r == Filter(s[1..], p);
      }
    }
  }

  /** ... and it keeps exactly as many elements as there are positions satisfying `p`. */
  lemma {:induction false} FilterLength<T>(s: seq<T>, p: T -> bool)
    ensures |Filter(s, p)| == CountWhere(s, p)
  {
    if s != [] {
      FilterLength(s[1..], p);
    }
  }

  /** Filtering with a predicate every element satisfies changes nothing. */
  lemma {:induction false} FilterKeepsAll<T>(s: seq<T>, p: T -> bool)
    requires forall i :: 0 <= i < |s| ==> p(s[i])
    ensures Filter(s, p) == s
  {
    if s != [] {
      FilterKeepsAll(s[1..], p);
    }
  }

  lemma FilterCons<T>(x: T, t: seq<T>, p: T -> bool)
    ensures Filter([x] + t, p) == (if p(x) then [x] else []) + Filter(t, p)
  {
    assert ([x] + t)[0] == x && ([x] + t)[1..] == t;
  }

  /** Splitting by a predicate and its negation loses and invents nothing. */
  lemma {:induction false} FilterPartition<T>(s: seq<T>, p: T -> bool, q: T -> bool)
    requires forall x :: q(x) == !p(x)
    ensures multiset(Filter(s, p)) + multiset(Filter(s, q)) == multiset(s)
  {
    if s != [] {
      var x, t := s[0], s[1..];
      assert s == [x] + t;
      FilterPartition(t, p, q);
      FilterCons(x, t, p);
      FilterCons(x, t, q);
      var a, b := Filter(t, p), Filter(t, q);
      if p(x) {
        assert !q(x);
        assert multiset([x] + a) == multiset{x} + multiset(a);
      } else {
        assert q(x);
        assert multiset([x] + b) == multiset{x} + multiset(b);
      }
    }
  }

  /** Concatenation of a sequence of sequences. */
  function Flatten<T>(ss: seq<seq<T>>): (r: seq<T>)
    ensures ss == [] ==> r == []
  {
    if ss == [] then [] else ss[0] + Flatten(ss[1..])
  }

  lemma {:induction false} FlattenAppend<T>(a: seq<seq<T>>, b: seq<seq<T>>)
    ensures Flatten(a + b) == Flatten(a) + Flatten(b)
  {
    if a != [] {
      assert (a + b)[0] == a[0];
      assert (a + b)[1..] == a[1..] + b;
      FlattenAppend(a[1..], b);
    } else {
      assert a + b == b;
    }
  }

  lemma FlattenSnoc<T>(a: seq<seq<T>>, x: seq<T>)
    ensures Flatten(a + [x]) == Flatten(a) + x
  {
    FlattenAppend(a, [x]);
  }

  // ---------------------------------------------------------------------
  // Joining and splitting on a separator ("&".join, str.split)
  // ---------------------------------------------------------------------

  /** `sep.join(xs)`. */
  function Join(xs: seq<string>, sep: char): string
  {
    if xs == [] then "" else if |xs| == 1 then xs[0] else xs[0] + [sep] + Join(xs[1..], sep)
  }

  /** Index of the first `c` in `s`, or `|s|` when there is none. */
  function IndexOf(s: string, c: char): (k: nat)
    ensures k <= |s|
    ensures k < |s| ==> s[k] == c
    ensures forall i :: 0 <= i < k ==> s[i] != c
  {
    if s == [] then 0 else if s[0] == c then 0 else 1 + IndexOf(s[1..], c)
  }

  /** `s.split(sep)`: the pieces between separators, never an empty list. */
  function Split(s: string, sep: char): (r: seq<string>)
    ensures |r| > 0
    decreases |s|
  {
    var k := IndexOf(s, sep);
    if k == |s| then [s] else [s[..k]] + Split(s[k + 1..], sep)
  }

  lemma IndexOfPastPrefix(a: string, sep: char, b: string)
    requires sep !in a
    ensures IndexOf(a + [sep] + b, sep) == |a|
  {
    var s := a + [sep] + b;
    assert s[|a|] == sep;
    assert forall i :: 0 <= i < |a| ==> s[i] == a[i];
  }

  lemma SplitPastPrefix(a: string, sep: char, b: string)
    requires sep !in a
    ensures Split(a + [sep] + b, sep) == [a] + Split(b, sep)
  {
    var s := a + [sep] + b;
    IndexOfPastPrefix(a, sep, b);
    assert s[..|a|] == a;
    assert s[|a| + 1..] == b;
  }

  /** Splitting undoes joining when no piece contains the separator. */
  lemma {:induction false} SplitJoin(xs: seq<string>, sep: char)
    requires |xs| > 0
    requires forall i :: 0 <= i < |xs| ==> sep !in xs[i]
    ensures Split(Join(xs, sep), sep) == xs
  {
    if |xs| == 1 {
      assert Join(xs, sep) == xs[0];
      assert IndexOf(xs[0], sep) == |xs[0]|;
    } else {
      var tl := xs[1..];
      assert forall i :: 0 <= i < |tl| ==> sep !in tl[i] by {
        forall i | 0 <= i < |tl| ensures sep !in tl[i] {
          assert tl[i] == xs[i + 1];
        }
      }
      SplitJoin(tl, sep);
      SplitPastPrefix(xs[0], sep, Join(tl, sep));
      assert xs == [xs[0]] + tl;
    }
  }

  // ---------------------------------------------------------------------
  // Whitespace and trimming
  // ---------------------------------------------------------------------

  /** The code points String.prototype.trim removes: WhiteSpace and LineTerminator
      of ECMA-262 (TAB, VT, FF, SP, NBSP, ZWNBSP, the Zs category, LF, CR, LS, PS). */
  predicate IsJsWhitespace(c: char)
  {
    c == '\t' || c == '\n' || c == '\U{B}' || c == '\U{C}' || c == '\r' || c == ' '
    || c == '\U{A0}' || c == '\U{1680}' || ('\U{2000}' <= c <= '\U{200A}')
    || c == '\U{2028}' || c == '\U{2029}' || c == '\U{202F}' || c == '\U{205F}'
    || c == '\U{3000}' || c == '\U{FEFF}'
  }

  /** The code points Python's str.isspace accepts, which str.strip() removes. */
  predicate IsPyWhitespace(c: char)
  {
    ('\t' <= c <= '\r') || ('\U{1C}' <= c <= ' ') || c == '\U{85}' || c == '\U{A0}'
    || c == '\U{1680}' || ('\U{2000}' <= c <= '\U{200A}') || c == '\U{2028}'
    || c == '\U{2029}' || c == '\U{202F}' || c == '\U{205F}' || c == '\U{3000}'
  }

  function TrimStart(s: string, ws: char -> bool): (r: string)
    ensures r == [] || !ws(r[0])
  {
    if s != [] && ws(s[0]) then TrimStart(s[1..], ws) else s
  }

  function TrimEnd(s: string, ws: char -> bool): string
  {
    if s != [] && ws(s[|s| - 1]) then TrimEnd(s[..|s| - 1], ws) else s
  }

  /** Removes leading and trailing whitespace, as trim() and strip() do. */
  function Trim(s: string, ws: char -> bool): string
  {
    TrimEnd(TrimStart(s, ws), ws)
  }

  ghost predicate AllWhitespace(s: string, ws: char -> bool)
  {
    forall i :: 0 <= i < |s| ==> ws(s[i])
  }

  lemma {:induction false} TrimStartEmptyIff(s: string, ws: char -> bool)
    ensures TrimStart(s, ws) == [] <==> AllWhitespace(s, ws)
  {
    if s != [] {
      TrimStartEmptyIff(s[1..], ws);
      if ws(s[0]) {
        assert AllWhitespace(s, ws) <==> AllWhitespace(s[1..], ws) by {
          forall i | 0 < i < |s| ensures s[i] == s[1..][i - 1] {}
        }
      }
    }
  }

  lemma {:induction false} TrimEndOfNonEmpty(s: string, ws: char -> bool)
    requires s != [] && !ws(s[0])
    ensures TrimEnd(s, ws) != []
  {
    if ws(s[|s| - 1]) {
      TrimEndOfNonEmpty(s[..|s| - 1], ws);
    }
  }

  /** A string trims to nothing exactly when every character is whitespace. */
  lemma TrimEmptyIff(s: string, ws: char -> bool)
    ensures Trim(s, ws) == [] <==> AllWhitespace(s, ws)
  {
    TrimStartEmptyIff(s, ws);
    var t := TrimStart(s, ws);
    if t != [] {
      TrimEndOfNonEmpty(t, ws);
    }
  }

  lemma {:induction false} TrimStartPadded(w: string, x: string, ws: char -> bool)
    requires AllWhitespace(w, ws)
    requires x != [] && !ws(x[0])
    ensures TrimStart(w + x, ws) == x
  {
    if w != [] {
      assert (w + x)[0] == w[0] && (w + x)[1..] == w[1..] + x;
      assert AllWhitespace(w[1..], ws) by {
        forall i | 0 <= i < |w[1..]| ensures ws(w[1..][i]) {
          assert w[1..][i] == w[i + 1];
        }
      }
      TrimStartPadded(w[1..], x, ws);
    } else {
      assert w + x == x;
    }
  }

  lemma {:induction false} TrimEndPadded(x: string, w: string, ws: char -> bool)
    requires AllWhitespace(w, ws)
    requires x != [] && !ws(x[|x| - 1])
    ensures TrimEnd(x + w, ws) == x
    decreases |w|
  {
    if w != [] {
      var w' := w[..|w| - 1];
      assert (x + w)[|x + w| - 1] == w[|w| - 1] && (x + w)[..|x + w| - 1] == x + w';
      assert AllWhitespace(w', ws) by {
        forall i | 0 <= i < |w'| ensures ws(w'[i]) {
          assert w'[i] == w[i];
        }
      }
      TrimEndPadded(x, w', ws);
    } else {
      assert x + w == x;
      assert x[|x| - 1] == (x + w)[|x + w| - 1];
    }
  }

  /** Whitespace around a string that neither starts nor ends with whitespace
      is exactly what trimming removes. */
  lemma TrimPadded(w1: string, x: string, w2: string, ws: char -> bool)
    requires AllWhitespace(w1, ws) && AllWhitespace(w2, ws)
    requires x != [] && !ws(x[0]) && !ws(x[|x| - 1])
    ensures Trim(w1 + x + w2, ws) == x
  {
    assert w1 + x + w2 == w1 + (x + w2);
    assert (x + w2)[0] == x[0];
    TrimStartPadded(w1, x + w2, ws);
    TrimEndPadded(x, w2, ws);
  }

  /** A string that starts with a non-whitespace character does not trim to nothing. */
  lemma TrimNonEmpty(s: string, ws: char -> bool)
    requires s != [] && !ws(s[0])
    ensures Trim(s, ws) != []
  {
    assert TrimStart(s, ws) == s;
    TrimEndOfNonEmpty(s, ws);
  }

  lemma {:induction false} TrimStartSlice(s: string, ws: char -> bool) returns (a: nat)
    ensures a <= |s| && TrimStart(s, ws) == s[a..]
    ensures forall k :: 0 <= k < a ==> ws(s[k])
  {
    if s != [] && ws(s[0]) {
      var a' := TrimStartSlice(s[1..], ws);
      a := a' + 1;
      assert s[1..][a'..] == s[a..];
      forall k | 0 < k < a ensures ws(s[k]) {
        assert s[k] == s[1..][k - 1];
      }
    } else {
      a := 0;
    }
  }

  lemma {:induction false} TrimEndSlice(s: string, ws: char -> bool) returns (b: nat)
    ensures b <= |s| && TrimEnd(s, ws) == s[..b]
    ensures forall k :: b <= k < |s| ==> ws(s[k])
    decreases |s|
  {
    if s != [] && ws(s[|s| - 1]) {
      var p := s[..|s| - 1];
      b := TrimEndSlice(p, ws);
      assert p[..b] == s[..b];
      forall k | b <= k < |s| ensures ws(s[k]) {
        if k < |s| - 1 {
          assert s[k] == p[k];
        }
      }
    } else {
      b := |s|;
    }
  }

  /** Trimming keeps one contiguous stretch of the string and removes only
      whitespace around it. */
  lemma TrimSlice(s: string, ws: char -> bool) returns (a: nat, b: nat)
    ensures a <= b <= |s| && Trim(s, ws) == s[a..b]
    ensures forall k :: 0 <= k < a ==> ws(s[k])
    ensures forall k :: b <= k < |s| ==> ws(s[k])
  {
    a := TrimStartSlice(s, ws);
    var t := s[a..];
    var b' := TrimEndSlice(t, ws);
    b := a + b';
    assert t[..b'] == s[a..b];
    forall k | b <= k < |s| ensures ws(s[k]) {
      assert s[k] == t[k - a];
    }
  }

  /** `!s.trim()` in JavaScript. */
  predicate IsJsBlank(s: string)
  {
    Trim(s, IsJsWhitespace) == []
  }

  /** `s.strip() == ""` in Python. */
  predicate IsPyBlank(s: string)
  {
    Trim(s, IsPyWhitespace) == []
  }

  // ---------------------------------------------------------------------
  // Code-point lexicographic order on strings (Python's `<` on str)
  // ---------------------------------------------------------------------

  predicate LexLess(a: string, b: string)
  {
    if a == [] then b != []
    else if b == [] then false
    else if a[0] != b[0] then a[0] < b[0]
    else LexLess(a[1..], b[1..])
  }

  lemma {:induction false} LexLessIrreflexive(a: string)
    ensures !LexLess(a, a)
  {
    if a != [] {
      LexLessIrreflexive(a[1..]);
    }
  }

  lemma {:induction false} LexLessTransitive(a: string, b: string, c: string)
    requires LexLess(a, b) && LexLess(b, c)
    ensures LexLess(a, c)
  {
    if a != [] && b != [] && c != [] && a[0] == b[0] && b[0] == c[0] {
      LexLessTransitive(a[1..], b[1..], c[1..]);
    }
  }

  lemma {:induction false} LexLessTotal(a: string, b: string)
    requires a != b
    ensures LexLess(a, b) || LexLess(b, a)
  {
    if a != [] && b != [] && a[0] == b[0] {
      assert a == [a[0]] + a[1..] && b == [b[0]] + b[1..];
      LexLessTotal(a[1..], b[1..]);
    }
  }

  lemma {:induction false} LexLessAsymmetric(a: string, b: string)
    requires LexLess(a, b)
    ensures !LexLess(b, a)
  {
    if a != [] && b != [] && a[0] == b[0] {
      LexLessAsymmetric(a[1..], b[1..]);
    }
  }
}
