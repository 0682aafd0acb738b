/**
 * String and sequence helpers shared by the store, the relations parser, the
 * tool executor and the rules generator: the ordering JavaScript's default
 * `Array.prototype.sort` uses on strings, sorting a set of names, joining,
 * flattening and first-occurrence de-duplication (`[...new Set(xs)]`).
 */
module Strings {

  // ---------------------------------------------------------------------------
  // Ordering
  // ---------------------------------------------------------------------------

  /** Strict lexicographic order, character by character; a proper prefix comes first. */
  predicate Less(a: string, b: string)
    decreases |a|
  {
    if |a| == 0 then |b| > 0
    else |b| > 0 && (a[0] < b[0] || (a[0] == b[0] && Less(a[1..], b[1..])))
  }

  lemma {:induction false} LessIrreflexive(a: string)
    ensures !Less(a, a)
    decreases |a|
  {
    if |a| > 0 {
      LessIrreflexive(a[1..]);
    }
  }

  lemma {:induction false} LessAsymmetric(a: string, b: string)
    ensures Less(a, b) ==> !Less(b, a)
    decreases |a|
  {
    if |a| > 0 && |b| > 0 && a[0] == b[0] {
      LessAsymmetric(a[1..], b[1..]);
    }
  }

  lemma LessAsymmetricAll()
    ensures forall a: string, b: string :: Less(a, b) ==> !Less(b, a)
  {
    forall a: string, b: string
      ensures Less(a, b) ==> !Less(b, a)
    {
      LessAsymmetric(a, b);
    }
  }

  lemma {:induction false} LessTransitive(a: string, b: string, c: string)
    requires Less(a, b) && Less(b, c)
    ensures Less(a, c)
    decreases |a|
  {
    if |a| > 0 && a[0] == b[0] && b[0] == c[0] {
      LessTransitive(a[1..], b[1..], c[1..]);
    }
  }

  lemma {:induction false} LessTotal(a: string, b: string)
    ensures a == b || Less(a, b) || Less(b, a)
    decreases |a|
  {
    if |a| > 0 && |b| > 0 && a[0] == b[0] {
      LessTotal(a[1..], b[1..]);
      if a[1..] == b[1..] {
        assert a == [a[0]] + a[1..] && b == [b[0]] + b[1..];
      }
    }
  }

  /** Every element is strictly below every later one: sorted and without repetitions. */
  predicate StrictlySorted(s: seq<string>)
  {
    forall i, j :: 0 <= i < j < |s| ==> Less(s[i], s[j])
  }

  /** A strictly sorted list is determined by its elements. */
  lemma {:induction false} SortedUnique(a: seq<string>, b: seq<string>)
    requires StrictlySorted(a) && StrictlySorted(b)
    requires forall x :: x in a <==> x in b
    ensures a == b
    decreases |a|
  {
    assert |a| > 0 ==> a[0] in a && a[0] in b;
    assert |b| > 0 ==> b[0] in b && b[0] in a;
    if |a| > 0 && |b| > 0 {
      assert a == [a[0]] + a[1..] && b == [b[0]] + b[1..];
      assert a[0] in a && b[0] in b;
      if a[0] != b[0] {
        var i :| 0 <= i < |a| && a[i] == b[0];
        var j :| 0 <= j < |b| && b[j] == a[0];
        assert i > 0 && j > 0;
        LessAsymmetric(a[0], b[0]);
        assert false;
      }
      forall x
        ensures x in a[1..] <==> x in b[1..]
      {
        if x in a[1..] {
          var i :| 1 <= i < |a| && a[i] == x;
          LessIrreflexive(a[0]);
          assert x != a[0] && x in a;
          assert x in b && x != b[0];
        }
        if x in b[1..] {
          var j :| 1 <= j < |b| && b[j] == x;
          LessIrreflexive(b[0]);
          assert x != b[0] && x in b;
          assert x in a && x != a[0];
        }
      }
      SortedUnique(a[1..], b[1..]);
    }
  }

  /** Distinct positions of a strictly sorted list hold distinct names. */
  lemma SortedDistinct(s: seq<string>, i: nat, j: nat)
    requires StrictlySorted(s) && i < |s| && j < |s| && i != j
    ensures s[i] != s[j]
  {
    if i < j { LessIrreflexive(s[i]); } else { LessIrreflexive(s[j]); }
  }

  predicate IsLeast(m: string, s: set<string>)
  {
    m in s && forall x :: x in s && x != m ==> Less(m, x)
  }

  lemma {:induction false} LeastExists(s: set<string>)
    requires s != {}
    ensures exists m :: IsLeast(m, s)
    decreases |s|
  {
    var x :| x in s;
    if s != {x} {
      var rest := s - {x};
      LeastExists(rest);
      var m :| IsLeast(m, rest);
      LessTotal(m, x);
      if Less(m, x) {
        assert IsLeast(m, s);
      } else {
        forall y | y in s && y != x
          ensures Less(x, y)
        {
          if y != m {
            LessTransitive(x, m, y);
          }
        }
        assert IsLeast(x, s);
      }
    } else {
      assert IsLeast(x, s);
    }
  }

  /**
   * The names of `s` in ascending order: what `.sort()` makes of the entries
   * of a directory listing, whose names are distinct.
   */
  function SortedOf(s: set<string>): seq<string>
    decreases |s|
  {
    if s == {} then []
    else
      LeastExists(s);
      LessAsymmetricAll();
      var m :| IsLeast(m, s);
      [m] + SortedOf(s - {m})
  }

  /** The least name of `s`, then the names of the rest in ascending order, is in ascending order. */
  lemma SortedCons(m: string, rest: seq<string>, s: set<string>)
    requires IsLeast(m, s) && StrictlySorted(rest)
    requires forall x :: x in rest <==> x in s - {m}
    ensures StrictlySorted([m] + rest)
  {
    var r := [m] + rest;
    forall i, j | 0 <= i < j < |r|
      ensures Less(r[i], r[j])
    {
      assert r[j] == rest[j - 1];
      if i == 0 {
        assert rest[j - 1] in rest;
      } else {
        assert r[i] == rest[i - 1];
      }
    }
  }

  /** `SortedOf(s)` holds the names of `s`, each once, in ascending order. */
  lemma {:induction false} SortedOfSpec(s: set<string>)
    ensures StrictlySorted(SortedOf(s))
    ensures forall x :: x in SortedOf(s) <==> x in s
    ensures |SortedOf(s)| == |s|
    decreases |s|
  {
    if s != {} {
      LeastExists(s);
      LessAsymmetricAll();
      var m :| IsLeast(m, s);
      var rest := SortedOf(s - {m});
      assert SortedOf(s) == [m] + rest;
      SortedOfSpec(s - {m});
      SortedCons(m, rest, s);
    }
  }

  // ---------------------------------------------------------------------------
  // Affixes, joining and flattening
  // ---------------------------------------------------------------------------

  predicate StartsWith(s: string, prefix: string)
  {
    |prefix| <= |s| && s[..|prefix|] == prefix
  }

  predicate EndsWith(s: string, suffix: string)
  {
    |suffix| <= |s| && s[|s| - |suffix|..] == suffix
  }

  /** `xs.join(sep)`. */
  function Join(xs: seq<string>, sep: string): string
  {
    if |xs| == 0 then ""
    else if |xs| == 1 then xs[0]
    else xs[0] + sep + Join(xs[1..], sep)
  }

  /** The concatenation of a sequence of sequences, in order. */
  function Flatten<T>(xss: seq<seq<T>>): seq<T>
  {
    if |xss| == 0 then [] else xss[0] + Flatten(xss[1..])
  }

  lemma {:induction false} FlattenAppend<T>(xss: seq<seq<T>>, ys: seq<T>)
    ensures Flatten(xss + [ys]) == Flatten(xss) + ys
  {
    if |xss| == 0 {
      assert xss + [ys] == [ys];
    } else {
      assert (xss + [ys])[1..] == xss[1..] + [ys];
      FlattenAppend(xss[1..], ys);
    }
  }

  lemma {:induction false} FlattenLength<T>(xss: seq<seq<T>>, lens: seq<nat>)
    requires |lens| == |xss|
    requires forall i :: 0 <= i < |xss| ==> |xss[i]| == lens[i]
    ensures |Flatten(xss)| == SumNats(lens)
  {
    if |xss| > 0 {
      FlattenLength(xss[1..], lens[1..]);
    }
  }

  /** Each part of `xss` occurs, as a contiguous slice, in `Flatten(xss)`. */
  lemma {:induction false} FlattenContainsPart<T>(xss: seq<seq<T>>, k: nat)
    requires k < |xss|
    ensures Contains(Flatten(xss), xss[k])
  {
    var f := Flatten(xss);
    if k == 0 {
      assert SliceAt(f, xss[0], 0);
    } else {
      FlattenContainsPart(xss[1..], k - 1);
      var rest := Flatten(xss[1..]);
      var lo :| SliceAt(rest, xss[k], lo);
      assert f == xss[0] + rest;
      assert f[|xss[0]| + lo..|xss[0]| + lo + |xss[k]|] == rest[lo..lo + |xss[k]|];
      assert SliceAt(f, xss[k], |xss[0]| + lo);
    }
  }

  /** An earlier part stands wholly before a later one in the flattening. */
  lemma {:induction false} FlattenBefore<T>(xss: seq<seq<T>>, i: nat, j: nat)
    requires i < j < |xss|
    ensures Before(Flatten(xss), xss[i], xss[j])
  {
    var rest := Flatten(xss[1..]);
    if i == 0 {
      FlattenContainsPart(xss[1..], j - 1);
      HeadBefore(xss[0], rest, xss[j]);
    } else {
      FlattenBefore(xss[1..], i - 1, j - 1);
      BeforeInContext(rest, xss[i], xss[j], xss[0], []);
      assert xss[0] + rest + [] == Flatten(xss);
    }
  }

  /** The parts `f(x)` of the elements of `xs`, one after another in order. */
  function Concat<T>(xs: seq<T>, f: T -> string): string
  {
    if |xs| == 0 then "" else Concat(xs[..|xs| - 1], f) + f(xs[|xs| - 1])
  }

  lemma ConcatSnoc<T>(xs: seq<T>, f: T -> string, i: nat)
    requires i < |xs|
    ensures Concat(xs[..i + 1], f) == Concat(xs[..i], f) + f(xs[i])
  {
    assert xs[..i + 1][..i] == xs[..i];
  }

  /** One step of a loop that appends the parts, after a prefix `h`, one element at a time. */
  lemma ConcatStep<T>(h: string, xs: seq<T>, f: T -> string, j: nat, s: string, part: string)
    requires j < |xs| && s == h + Concat(xs[..j], f) && part == f(xs[j])
    ensures s + part == h + Concat(xs[..j + 1], f)
  {
    ConcatSnoc(xs, f, j);
  }

  /** Each element's part occurs, as a contiguous slice, in the concatenation. */
  lemma {:induction false} ConcatContains<T>(xs: seq<T>, f: T -> string, k: nat)
    requires k < |xs|
    ensures Contains(Concat(xs, f), f(xs[k]))
  {
    var n := |xs| - 1;
    var init := xs[..n];
    if k == n {
      assert Concat(xs, f)[|Concat(init, f)|..|Concat(init, f)| + |f(xs[k])|] == f(xs[k]);
      assert SliceAt(Concat(xs, f), f(xs[k]), |Concat(init, f)|);
    } else {
      ConcatContains(init, f, k);
      assert init[k] == xs[k];
      ContainsInContext(Concat(init, f), f(xs[k]), "", f(xs[n]));
      assert "" + Concat(init, f) + f(xs[n]) == Concat(xs, f);
    }
  }

  /** When every part is empty, so is the concatenation. */
  lemma {:induction false} ConcatEmpty<T>(xs: seq<T>, f: T -> string)
    requires forall k :: 0 <= k < |xs| ==> f(xs[k]) == ""
    ensures Concat(xs, f) == ""
  {
    if |xs| > 0 {
      ConcatEmpty(xs[..|xs| - 1], f);
    }
  }

  /** The parts of a prefix of the elements are a prefix of the concatenation. */
  lemma {:induction false} ConcatPrefix<T>(xs: seq<T>, f: T -> string, n: nat)
    requires n <= |xs|
    ensures Concat(xs[..n], f) <= Concat(xs, f)
    decreases |xs| - n
  {
    if n < |xs| {
      var init := xs[..|xs| - 1];
      assert init[..n] == xs[..n];
      ConcatPrefix(init, f, n);
    } else {
      assert xs[..n] == xs;
    }
  }

  /** An earlier element's part stands wholly before a later one's. */
  lemma ConcatBefore<T>(xs: seq<T>, f: T -> string, i: nat, j: nat)
    requires i < j < |xs|
    ensures Before(Concat(xs, f), f(xs[i]), f(xs[j]))
  {
    var head := Concat(xs[..j], f);
    var upto := Concat(xs[..j + 1], f);
    ConcatSnoc(xs, f, j);
    assert xs[..j][i] == xs[i];
    ConcatContains(xs[..j], f, i);
    var lo1 :| SliceAt(head, f(xs[i]), lo1);
    SliceInPrefix(head, f(xs[j]), f(xs[i]), lo1);
    SliceAtEnd(head, f(xs[j]));
    ConcatPrefix(xs, f, j + 1);
    SliceInLonger(upto, Concat(xs, f), f(xs[i]), lo1);
    SliceInLonger(upto, Concat(xs, f), f(xs[j]), |head|);
  }

  lemma SliceInPrefix<T>(head: seq<T>, tail: seq<T>, s: seq<T>, lo: int)
    requires SliceAt(head, s, lo)
    ensures SliceAt(head + tail, s, lo)
  {
    assert (head + tail)[lo..lo + |s|] == head[lo..lo + |s|];
  }

  lemma SliceAtEnd<T>(head: seq<T>, tail: seq<T>)
    ensures SliceAt(head + tail, tail, |head|)
  {
    assert (head + tail)[|head|..|head| + |tail|] == tail;
  }

  lemma SliceInLonger<T>(p: seq<T>, t: seq<T>, s: seq<T>, lo: int)
    requires p <= t && SliceAt(p, s, lo)
    ensures SliceAt(t, s, lo)
  {
    assert t[lo..lo + |s|] == p[lo..lo + |s|];
  }

  function SumNats(xs: seq<nat>): nat
  {
    if |xs| == 0 then 0 else xs[0] + SumNats(xs[1..])
  }

  lemma {:induction false} SumNatsAppend(xs: seq<nat>, x: nat)
    ensures SumNats(xs + [x]) == SumNats(xs) + x
  {
    if |xs| == 0 {
      assert xs + [x] == [x];
    } else {
      assert (xs + [x])[1..] == xs[1..] + [x];
      SumNatsAppend(xs[1..], x);
    }
  }

  /** `s` occurs in `t` at offset `lo`. */
  predicate SliceAt<T(==)>(t: seq<T>, s: seq<T>, lo: int)
  {
    0 <= lo <= |t| - |s| && t[lo..lo + |s|] == s
  }

  /** `s` is a contiguous part of `t`. */
  ghost predicate Contains<T>(t: seq<T>, s: seq<T>)
  {
    exists lo :: SliceAt(t, s, lo)
  }

  /** `a` occurs in `t`, and `b` occurs in `t` after the end of that occurrence. */
  ghost predicate Before<T>(t: seq<T>, a: seq<T>, b: seq<T>)
  {
    exists lo1, lo2 :: SliceAt(t, a, lo1) && SliceAt(t, b, lo2) && lo1 + |a| <= lo2
  }

  lemma ContainsInContext<T>(t: seq<T>, s: seq<T>, before: seq<T>, after: seq<T>)
    requires Contains(t, s)
    ensures Contains(before + t + after, s)
  {
    var lo :| SliceAt(t, s, lo);
    var u := before + t + after;
    assert u[|before| + lo..|before| + lo + |s|] == t[lo..lo + |s|];
    assert SliceAt(u, s, |before| + lo);
  }

  lemma BeforeInContext<T>(t: seq<T>, a: seq<T>, b: seq<T>, before: seq<T>, after: seq<T>)
    requires Before(t, a, b)
    ensures Before(before + t + after, a, b)
  {
    var lo1, lo2 :| SliceAt(t, a, lo1) && SliceAt(t, b, lo2) && lo1 + |a| <= lo2;
    var u := before + t + after;
    assert u[|before| + lo1..|before| + lo1 + |a|] == t[lo1..lo1 + |a|];
    assert u[|before| + lo2..|before| + lo2 + |b|] == t[lo2..lo2 + |b|];
    assert SliceAt(u, a, |before| + lo1) && SliceAt(u, b, |before| + lo2);
  }

  /** A slice of a slice is a slice of the whole, at the sum of the offsets. */
  lemma SliceShift<T>(t: seq<T>, u: seq<T>, s: seq<T>, lo: int, lo2: int)
    requires SliceAt(t, u, lo) && SliceAt(u, s, lo2)
    ensures SliceAt(t, s, lo + lo2)
  {
    forall k | 0 <= k < |s| ensures t[lo + lo2 + k] == s[k] {
      assert u[lo2 + k] == s[k];
      assert t[lo + (lo2 + k)] == u[lo2 + k];
    }
    assert t[lo + lo2..lo + lo2 + |s|] == s;
  }

  lemma ContainsTransitive<T>(t: seq<T>, u: seq<T>, s: seq<T>)
    requires Contains(t, u) && Contains(u, s)
    ensures Contains(t, s)
  {
    var lo :| SliceAt(t, u, lo);
    var lo2 :| SliceAt(u, s, lo2);
    SliceShift(t, u, s, lo, lo2);
  }

  /** The order of two parts of a contiguous slice carries over to the whole. */
  lemma BeforeWithin<T>(t: seq<T>, u: seq<T>, a: seq<T>, b: seq<T>)
    requires Contains(t, u) && Before(u, a, b)
    ensures Before(t, a, b)
  {
    var lo :| SliceAt(t, u, lo);
    var lo1, lo2 :| SliceAt(u, a, lo1) && SliceAt(u, b, lo2) && lo1 + |a| <= lo2;
    SliceShift(t, u, a, lo, lo1);
    SliceShift(t, u, b, lo, lo2);
  }

  /** Whatever occurs in `t` stands wholly after `h` in `h + t`. */
  lemma HeadBefore<T>(h: seq<T>, t: seq<T>, s: seq<T>)
    requires Contains(t, s)
    ensures Before(h + t, h, s)
  {
    var lo :| SliceAt(t, s, lo);
    var u := h + t;
    assert u[0..|h|] == h;
    assert u[|h| + lo..|h| + lo + |s|] == t[lo..lo + |s|];
    assert SliceAt(u, h, 0) && SliceAt(u, s, |h| + lo);
  }

  // ---------------------------------------------------------------------------
  // Splitting at a separator: the inverse of joining with it
  // ---------------------------------------------------------------------------

  /** `s.split(c)`: the pieces between the occurrences of `c`, in order; always at least one. */
  function SplitOn(s: string, c: char): (r: seq<string>)
    ensures |r| > 0
    decreases |s|
  {
    if |s| == 0 then [""]
    else
      var rest := SplitOn(s[1..], c);
      if s[0] == c then [""] + rest else [[s[0]] + rest[0]] + rest[1..]
  }

  lemma {:induction false} SplitNoSep(a: string, c: char)
    requires c !in a
    ensures SplitOn(a, c) == [a]
    decreases |a|
  {
    if |a| > 0 {
      SplitNoSep(a[1..], c);
      assert [a[0]] + a[1..] == a;
    }
  }

  /** A piece free of `c`, then `c`: the piece comes first, then the pieces of what follows. */
  lemma {:induction false} SplitAt(a: string, b: string, c: char)
    requires c !in a
    ensures SplitOn(a + [c] + b, c) == [a] + SplitOn(b, c)
    decreases |a|
  {
    var s := a + [c] + b;
    if |a| == 0 {
      assert s == [c] + b && s[1..] == b;
    } else {
      assert s[0] == a[0] && s[1..] == a[1..] + [c] + b;
      SplitAt(a[1..], b, c);
      assert [a[0]] + a[1..] == a;
    }
  }

  /** Splitting a join of pieces free of the separator gives the pieces back. */
  lemma {:induction false} SplitJoin(xs: seq<string>, c: char)
    requires |xs| > 0 && forall i :: 0 <= i < |xs| ==> c !in xs[i]
    ensures SplitOn(Join(xs, [c]), c) == xs
    decreases |xs|
  {
    if |xs| == 1 {
      SplitNoSep(xs[0], c);
    } else {
      SplitAt(xs[0], Join(xs[1..], [c]), c);
      SplitJoin(xs[1..], c);
      assert xs == [xs[0]] + xs[1..];
    }
  }

  lemma JoinCons(p: string, xs: seq<string>, sep: string)
    requires |xs| > 0
    ensures Join([p + xs[0]] + xs[1..], sep) == p + Join(xs, sep)
  {
    var ys := [p + xs[0]] + xs[1..];
    if |xs| > 1 {
      assert ys[1..] == xs[1..];
    }
  }

  /** Joining the pieces of a split with the separator gives the text back, and no piece holds the separator. */
  lemma {:induction false} JoinSplit(s: string, c: char)
    ensures Join(SplitOn(s, c), [c]) == s
    ensures forall i :: 0 <= i < |SplitOn(s, c)| ==> c !in SplitOn(s, c)[i]
    decreases |s|
  {
    if |s| > 0 {
      var rest := SplitOn(s[1..], c);
      JoinSplit(s[1..], c);
      if s[0] == c {
        assert ([""] + rest)[1..] == rest;
        assert s == [c] + s[1..];
      } else {
        JoinCons([s[0]], rest, [c]);
        assert s == [s[0]] + s[1..];
        var r := SplitOn(s, c);
        forall i | 0 <= i < |r|
          ensures c !in r[i]
        {
          if i > 0 {
            assert r[i] == rest[i];
          }
        }
      }
    }
  }

  // ---------------------------------------------------------------------------
  // First-occurrence de-duplication: `[...new Set(xs)]`
  // ---------------------------------------------------------------------------

  /**
   * The elements of `xs` not in `seen`, each at its first occurrence, in
   * order: what a JavaScript `Set` that already holds `seen` adds, in its
   * insertion order, when the elements of `xs` are added one by one.
   */
  function NewElements(seen: set<string>, xs: seq<string>): (r: seq<string>)
    ensures forall x :: x in r <==> x in xs && x !in seen
    ensures forall i, j :: 0 <= i < j < |r| ==> r[i] != r[j]
    decreases |xs|
  {
    if |xs| == 0 then []
    else if xs[0] in seen then NewElements(seen, xs[1..])
    else [xs[0]] + NewElements(seen + {xs[0]}, xs[1..])
  }

  /** `[...new Set(xs)]`. */
  function Dedup(xs: seq<string>): seq<string>
  {
    NewElements({}, xs)
  }

  /** The elements of `xs` outside `s`, in order. */
  function Without(xs: seq<string>, s: set<string>): (r: seq<string>)
    ensures forall x :: x in r <==> x in xs && x !in s
  {
    if |xs| == 0 then []
    else if xs[0] in s then Without(xs[1..], s)
    else [xs[0]] + Without(xs[1..], s)
  }

  lemma {:induction false} NewElementsAppend(seen: set<string>, a: seq<string>, b: seq<string>)
    ensures NewElements(seen, a + b) == NewElements(seen, a) + NewElements(seen + (set x | x in a), b)
    decreases |a|
  {
    if |a| == 0 {
      assert a + b == b;
      assert (set x | x in a) == {};
      assert seen + (set x | x in a) == seen;
    } else {
      assert (a + b)[0] == a[0] && (a + b)[1..] == a[1..] + b;
      ElementsCons(seen, a);
      if a[0] in seen {
        NewElementsAppend(seen, a[1..], b);
      } else {
        NewElementsAppend(seen + {a[0]}, a[1..], b);
      }
    }
  }

  lemma ElementsCons(seen: set<string>, a: seq<string>)
    requires |a| > 0
    ensures (if a[0] in seen then seen else seen + {a[0]}) + (set x | x in a[1..]) == seen + (set x | x in a)
  {
    assert forall x :: x in a <==> x == a[0] || x in a[1..] by {
      forall x ensures x in a <==> x == a[0] || x in a[1..] {
        assert a == [a[0]] + a[1..];
      }
    }
  }

  lemma {:induction false} NewElementsWithout(s: set<string>, t: set<string>, xs: seq<string>)
    ensures NewElements(s + t, xs) == Without(NewElements(t, xs), s)
    decreases |xs|
  {
    if |xs| > 0 {
      var x := xs[0];
      if x in t {
        NewElementsWithout(s, t, xs[1..]);
      } else if x in s {
        assert s + (t + {x}) == s + t;
        NewElementsWithout(s, t + {x}, xs[1..]);
      } else {
        assert s + (t + {x}) == (s + t) + {x};
        NewElementsWithout(s, t + {x}, xs[1..]);
      }
    }
  }

  /**
   * Merging two lists through a `Set` keeps the first list's distinct
   * elements in their order and then appends, in their own order, the
   * distinct elements of the second list that the first does not hold.
   */
  lemma DedupConcat(a: seq<string>, b: seq<string>)
    ensures Dedup(a + b) == Dedup(a) + Without(Dedup(b), set x | x in a)
  {
    NewElementsAppend({}, a, b);
    assert {} + (set x | x in a) == (set x | x in a) + {};
    NewElementsWithout(set x | x in a, {}, b);
  }
}
