// Generic facts about Python lists modelled as Dafny sequences: duplicate
// freedom, the set of elements, and the "subsequence" order that every move
// filter of the engine preserves.
module Seqs {

  /** No element occurs twice. */
  predicate Distinct<T(==)>(s: seq<T>) {
    forall i, j | 0 <= i < j < |s| :: s[i] != s[j]
  }

  /** The elements of a list, as a set. */
  function Elems<T(==)>(s: seq<T>): set<T> {
    set x | x in s
  }

  /** xs can be obtained from ys by deleting elements (order is kept). */
  predicate Subseq<T(==)>(xs: seq<T>, ys: seq<T>)
    decreases |ys|
  {
    if xs == [] then true
    else if ys == [] then false
    else (xs[0] == ys[0] && Subseq(xs[1..], ys[1..])) || Subseq(xs, ys[1..])
  }

  lemma {:induction false} DistinctCard<T>(s: seq<T>)
    requires Distinct(s)
    ensures |Elems(s)| == |s|
  {
    if s != [] {
      assert Distinct(s[1..]);
      DistinctCard(s[1..]);
      assert Elems(s) == {s[0]} + Elems(s[1..]);
      assert s[0] !in Elems(s[1..]);
    }
  }

  /** A subset is no larger than the set. */
  lemma SubsetCard<T>(a: set<T>, b: set<T>)
    requires a <= b
    ensures |a| <= |b|
  {
    assert b == a + (b - a);
    assert a * (b - a) == {};
  }

  lemma {:induction false} SubseqElems<T>(xs: seq<T>, ys: seq<T>)
    requires Subseq(xs, ys)
    ensures forall x | x in xs :: x in ys
    decreases |ys|
  {
    if xs != [] {
      if xs[0] == ys[0] && Subseq(xs[1..], ys[1..]) {
        SubseqElems(xs[1..], ys[1..]);
        forall x | x in xs ensures x in ys {
          if x != xs[0] { assert x in xs[1..]; }
        }
      } else {
        SubseqElems(xs, ys[1..]);
      }
    }
  }

  lemma {:induction false} SubseqTrans<T>(xs: seq<T>, ys: seq<T>, zs: seq<T>)
    requires Subseq(xs, ys) && Subseq(ys, zs)
    ensures Subseq(xs, zs)
    decreases |zs|
  {
    if xs != [] {
      assert ys != [] && zs != [];
      if ys[0] == zs[0] && Subseq(ys[1..], zs[1..]) {
        if xs[0] == ys[0] && Subseq(xs[1..], ys[1..]) {
          SubseqTrans(xs[1..], ys[1..], zs[1..]);
        } else {
          SubseqTrans(xs, ys[1..], zs[1..]);
        }
      } else {
        SubseqTrans(xs, ys, zs[1..]);
      }
    }
  }

  /** A subsequence of a duplicate-free list is duplicate-free. */
  lemma {:induction false} SubseqDistinct<T>(xs: seq<T>, ys: seq<T>)
    requires Subseq(xs, ys) && Distinct(ys)
    ensures Distinct(xs)
    decreases |ys|
  {
    if xs != [] {
      assert Distinct(ys[1..]);
      if xs[0] == ys[0] && Subseq(xs[1..], ys[1..]) {
        SubseqDistinct(xs[1..], ys[1..]);
        SubseqElems(xs[1..], ys[1..]);
        forall i, j | 0 <= i < j < |xs| ensures xs[i] != xs[j] {
          if i == 0 {
            assert xs[j] == xs[1..][j - 1];
            assert xs[j] in ys[1..];
          } else {
            assert xs[i] == xs[1..][i - 1] && xs[j] == xs[1..][j - 1];
          }
        }
      } else {
        SubseqDistinct(xs, ys[1..]);
      }
    }
  }

  /** A subsequence is no longer than the list, and one as long is the
      list itself. */
  lemma {:induction false} SubseqLength<T>(xs: seq<T>, ys: seq<T>)
    requires Subseq(xs, ys)
    ensures |xs| <= |ys| && (|xs| == |ys| ==> xs == ys)
    decreases |ys|
  {
    if xs != [] {
      if xs[0] == ys[0] && Subseq(xs[1..], ys[1..]) {
        SubseqLength(xs[1..], ys[1..]);
        if |xs| == |ys| {
          assert xs == [xs[0]] + xs[1..] && ys == [ys[0]] + ys[1..];
        }
      } else {
        SubseqLength(xs, ys[1..]);
      }
    }
  }

  /** list.remove(x): drops the first occurrence of x, if any. */
  function RemoveFirst<T(==)>(s: seq<T>, x: T): seq<T> {
    if s == [] then []
    else if s[0] == x then s[1..]
    else [s[0]] + RemoveFirst(s[1..], x)
  }

  /** Removing an element whose first occurrence is at index i cuts the list
      at i. */
  lemma {:induction false} RemoveFirstAt<T>(s: seq<T>, i: int)
    requires 0 <= i < |s| && s[i] !in s[..i]
    ensures RemoveFirst(s, s[i]) == s[..i] + s[i + 1..]
  {
    if i > 0 {
      assert s[i] != s[0] by { assert s[0] in s[..i]; }
      assert s[1..][i - 1] == s[i];
      assert s[i] !in s[1..][..i - 1] by { assert s[1..][..i - 1] == s[1..i]; }
      RemoveFirstAt(s[1..], i - 1);
      assert s[..i] == [s[0]] + s[1..][..i - 1];
      assert s[1..][i..] == s[i + 1..];
    }
  }

  /** The elements of s that satisfy f, in their order in s (a Python list
      comprehension with a condition, or a loop appending what passes). */
  ghost function Filter<T>(f: T -> bool, s: seq<T>): seq<T> {
    if s == [] then []
    else (if f(s[0]) then [s[0]] else []) + Filter(f, s[1..])
  }

  lemma {:induction false} FilterConcat<T>(f: T -> bool, xs: seq<T>, ys: seq<T>)
    ensures Filter(f, xs + ys) == Filter(f, xs) + Filter(f, ys)
  {
    if xs == [] {
      assert xs + ys == ys;
    } else {
      var head := if f(xs[0]) then [xs[0]] else [];
      assert (xs + ys)[0] == xs[0];
      assert (xs + ys)[1..] == xs[1..] + ys;
      FilterConcat(f, xs[1..], ys);
      calc {
        Filter(f, xs + ys);
        head + Filter(f, xs[1..] + ys);
        head + (Filter(f, xs[1..]) + Filter(f, ys));
        (head + Filter(f, xs[1..])) + Filter(f, ys);
      }
    }
  }

  /** Filtering keeps exactly the elements that pass, in order. */
  lemma {:induction false} FilterSpec<T>(f: T -> bool, s: seq<T>)
    ensures forall x :: x in Filter(f, s) <==> x in s && f(x)
    ensures Subseq(Filter(f, s), s)
  {
    if s != [] {
      FilterSpec(f, s[1..]);
      var r := Filter(f, s[1..]);
      if f(s[0]) {
        assert Filter(f, s) == [s[0]] + r;
        assert ([s[0]] + r)[1..] == r;
        assert Subseq([s[0]] + r, s);
      } else {
        assert Filter(f, s) == r;
        assert Subseq(r, s);
      }
      forall x ensures x in s <==> x == s[0] || x in s[1..] {
        if x in s && x != s[0] {
          var k :| 0 <= k < |s| && s[k] == x;
          assert s[1..][k - 1] == x;
        }
      }
    }
  }

  /** One more step of a loop that appends what passes f. */
  lemma FilterPrefix<T>(f: T -> bool, s: seq<T>, i: int)
    requires 0 <= i < |s|
    ensures Filter(f, s[..i + 1]) == Filter(f, s[..i]) + (if f(s[i]) then [s[i]] else [])
  {
    assert s[..i + 1] == s[..i] + [s[i]];
    FilterConcat(f, s[..i], [s[i]]);
  }

  /** Moving the head of a suffix to the end of the prefix. */
  lemma ShiftOne<T>(out: seq<T>, s: seq<T>, j: int)
    requires 0 <= j < |s|
    ensures out + s[j..] == (out + [s[j]]) + s[j + 1..]
  {
    assert s[j..] == [s[j]] + s[j + 1..];
  }

  /** What `for x in xs: if f(x): xs.remove(x)` leaves of a duplicate-free
      list. Python's list iterator keeps a running index, so after a removal
      the next element slides into the slot just examined and is never
      tested: it stays, whatever f says of it. */
  ghost function RemoveWhileIterating<T>(f: T -> bool, xs: seq<T>): seq<T>
    decreases |xs|
  {
    if xs == [] then []
    else if f(xs[0]) then
      (if |xs| == 1 then [] else [xs[1]] + RemoveWhileIterating(f, xs[2..]))
    else [xs[0]] + RemoveWhileIterating(f, xs[1..])
  }

  /** An examined element that f removes, out being what was kept before
      it and rest the list from it on: the next element is kept unexamined. */
  lemma RemoveWhileIteratingRemoved<T>(f: T -> bool, out: seq<T>, rest: seq<T>)
    requires rest != [] && f(rest[0])
    ensures |rest| == 1 ==> out + RemoveWhileIterating(f, rest) == out
    ensures |rest| >= 2 ==>
              out + RemoveWhileIterating(f, rest) == (out + [rest[1]]) + RemoveWhileIterating(f, rest[2..])
  {
    if |rest| == 1 {
      assert out + [] == out;
    }
  }

  /** An examined element that f keeps. */
  lemma RemoveWhileIteratingKept<T>(f: T -> bool, out: seq<T>, rest: seq<T>)
    requires rest != [] && !f(rest[0])
    ensures out + RemoveWhileIterating(f, rest) == (out + [rest[0]]) + RemoveWhileIterating(f, rest[1..])
    ensures out + rest == (out + [rest[0]]) + rest[1..]
  {
    assert rest == [rest[0]] + rest[1..];
  }

  lemma {:induction false} RemoveWhileIteratingSubseq<T>(f: T -> bool, xs: seq<T>)
    ensures Subseq(RemoveWhileIterating(f, xs), xs)
    decreases |xs|
  {
    if xs != [] {
      if f(xs[0]) {
        if |xs| > 1 {
          var rest := RemoveWhileIterating(f, xs[2..]);
          RemoveWhileIteratingSubseq(f, xs[2..]);
          assert xs[1..][1..] == xs[2..];
          assert ([xs[1]] + rest)[1..] == rest;
          assert Subseq([xs[1]] + rest, xs[1..]);
        }
      } else {
        var rest := RemoveWhileIterating(f, xs[1..]);
        RemoveWhileIteratingSubseq(f, xs[1..]);
        assert ([xs[0]] + rest)[1..] == rest;
      }
    }
  }

  /** Only elements satisfying f are ever removed. */
  lemma {:induction false} RemoveWhileIteratingDrops<T>(f: T -> bool, xs: seq<T>, x: T)
    requires x in xs && x !in RemoveWhileIterating(f, xs)
    ensures f(x)
    decreases |xs|
  {
    if x != xs[0] {
      assert x in xs[1..];
      if f(xs[0]) {
        assert x != xs[1];
        assert x in xs[2..] by {
          var k :| 0 <= k < |xs| && xs[k] == x;
          assert xs[2..][k - 2] == x;
        }
        RemoveWhileIteratingDrops(f, xs[2..], x);
      } else {
        RemoveWhileIteratingDrops(f, xs[1..], x);
      }
    }
  }

  /** The element right after a removed one always stays. */
  lemma {:induction false} RemoveWhileIteratingKeepsNext<T>(f: T -> bool, xs: seq<T>, k: int)
    requires 0 <= k < |xs| - 1 && xs[k] !in RemoveWhileIterating(f, xs)
    ensures xs[k + 1] in RemoveWhileIterating(f, xs)
    decreases |xs|
  {
    if f(xs[0]) {
      if k >= 2 {
        var rest := RemoveWhileIterating(f, xs[2..]);
        assert RemoveWhileIterating(f, xs) == [xs[1]] + rest;
        assert xs[2..][k - 2] == xs[k] && xs[2..][k - 1] == xs[k + 1];
        RemoveWhileIteratingKeepsNext(f, xs[2..], k - 2);
      }
    } else {
      var rest := RemoveWhileIterating(f, xs[1..]);
      assert RemoveWhileIterating(f, xs) == [xs[0]] + rest;
      assert xs[1..][k - 1] == xs[k] && xs[1..][k] == xs[k + 1];
      RemoveWhileIteratingKeepsNext(f, xs[1..], k - 1);
    }
  }

  /** The list after its element at index |out|, the first one not yet
      examined, is removed. */
  lemma RemoveExamined<T>(xs: seq<T>, out: seq<T>, rest: seq<T>)
    requires xs == out + rest && rest != [] && Distinct(xs)
    ensures RemoveFirst(xs, xs[|out|]) == out + rest[1..]
    ensures Distinct(out + rest[1..])
  {
    var i := |out|;
    assert xs[..i] == out;
    assert xs[i + 1..] == rest[1..];
    RemoveFirstAt(xs, i);
    var r := out + rest[1..];
    forall k, l | 0 <= k < l < |r| ensures r[k] != r[l] {
      var k' := if k < i then k else k + 1;
      var l' := if l < i then l else l + 1;
      assert xs[k'] == r[k];
      assert xs[l'] == r[l];
    }
  }

  /** The elements passing f if there are any, otherwise those passing g. */
  ghost function FilterOrElse<T>(f: T -> bool, g: T -> bool, xs: seq<T>): seq<T> {
    if Filter(f, xs) != [] then Filter(f, xs) else Filter(g, xs)
  }

  lemma FilterOrElseSpec<T>(f: T -> bool, g: T -> bool, xs: seq<T>)
    ensures Subseq(FilterOrElse(f, g, xs), xs)
    ensures (exists x | x in xs :: f(x)) ==>
              forall x :: x in FilterOrElse(f, g, xs) <==> x in xs && f(x)
    ensures (forall x | x in xs :: !f(x)) ==>
              forall x :: x in FilterOrElse(f, g, xs) <==> x in xs && g(x)
  {
    FilterSpec(f, xs);
    FilterSpec(g, xs);
    if Filter(f, xs) != [] {
      assert Filter(f, xs)[0] in Filter(f, xs);
      var x0 :| x0 in Filter(f, xs);
      assert x0 in xs && f(x0);
    }
  }

  /** Moving the last element of ys to the end of xs (a stack pop followed
      by an append) keeps both lists duplicate-free and disjoint, and keeps
      their union. */
  lemma MoveLast<T>(xs: seq<T>, ys: seq<T>)
    requires Distinct(xs) && Distinct(ys) && ys != []
    requires forall q | q in xs :: q !in ys
    ensures ys[|ys| - 1] !in xs
    ensures Distinct(xs + [ys[|ys| - 1]]) && Distinct(ys[..|ys| - 1])
    ensures ys[|ys| - 1] !in ys[..|ys| - 1] && forall q | q in xs :: q !in ys[..|ys| - 1]
    ensures Elems(xs + [ys[|ys| - 1]]) == Elems(xs) + {ys[|ys| - 1]}
    ensures Elems(xs + [ys[|ys| - 1]]) + Elems(ys[..|ys| - 1]) == Elems(xs) + Elems(ys)
  {
    var x := ys[|ys| - 1];
    var rest := ys[..|ys| - 1];
    assert ys == rest + [x];
    assert x !in rest;
  }
}
