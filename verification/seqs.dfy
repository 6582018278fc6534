/** Generic sequence operations: `Array.prototype.filter` and the
    order-preserving subsequence relation it establishes. */
module Seqs {
  import opened Wrappers

  /** `a` can be obtained from `b` by deleting elements, keeping the order of the rest. */
  ghost predicate IsSubsequence<T>(a: seq<T>, b: seq<T>)
    decreases |b|
  {
    if a == [] then true
    else if b == [] then false
    else (a[0] == b[0] && IsSubsequence(a[1..], b[1..])) || IsSubsequence(a, b[1..])
  }

  /** `s.filter(p)`. */
  function Filter<T>(s: seq<T>, p: T -> bool): (r: seq<T>)
    ensures |r| <= |s|
    ensures forall i :: 0 <= i < |r| ==> r[i] in s && p(r[i])
    ensures forall i :: 0 <= i < |s| && p(s[i]) ==> s[i] in r
    ensures IsSubsequence(r, s)
  {
    if s == [] then []
    else
      var rest := Filter(s[1..], p);
      if p(s[0]) then
        assert ([s[0]] + rest)[1..] == rest;
        [s[0]] + rest
      else rest
  }

  /** A filter that keeps every element is the identity. */
  lemma {:induction false} FilterAll<T>(s: seq<T>, p: T -> bool)
    requires forall i :: 0 <= i < |s| ==> p(s[i])
    ensures Filter(s, p) == s
  {
    if s != [] {
      FilterAll(s[1..], p);
      assert [s[0]] + s[1..] == s;
    }
  }

  /** A property every element of `s` has, every rearrangement of `s` has as well. */
  lemma AllOfPermutation<T>(r: seq<T>, s: seq<T>, p: T -> bool)
    requires multiset(r) == multiset(s) && forall k :: 0 <= k < |s| ==> p(s[k])
    ensures forall k :: 0 <= k < |r| ==> p(r[k])
  {
    forall k | 0 <= k < |r| ensures p(r[k]) {
      assert r[k] in multiset(s);
    }
  }

  /** Filtering distributes over concatenation. */
  lemma {:induction false} FilterAppend<T>(a: seq<T>, b: seq<T>, p: T -> bool)
    ensures Filter(a + b, p) == Filter(a, p) + Filter(b, p)
  {
    if a != [] {
      assert (a + b)[1..] == a[1..] + b;
      FilterAppend(a[1..], b, p);
    } else {
      assert a + b == b;
    }
  }

  /** The position of the first element satisfying `p`, as a table scan finds it. */
  function FirstIndex<T>(s: seq<T>, p: T -> bool): (r: Option<nat>)
    ensures r.Some? ==> r.value < |s| && p(s[r.value]) && forall k :: 0 <= k < r.value ==> !p(s[k])
    ensures r.None? <==> forall k :: 0 <= k < |s| ==> !p(s[k])
  {
    if s == [] then None
    else if p(s[0]) then Some(0)
    else match FirstIndex(s[1..], p)
      case Some(i) => Some(i + 1)
      case None => None
  }

  /** The first element satisfying `p` (`find_first`), if any. */
  function First<T>(s: seq<T>, p: T -> bool): (r: Option<T>)
    ensures r.Some? <==> exists k :: 0 <= k < |s| && p(s[k])
    ensures r.Some? ==> r.value in s && p(r.value)
  {
    match FirstIndex(s, p)
    case Some(i) => Some(s[i])
    case None => None
  }

  /** An identifier above every identifier in `s`: the next auto-increment value. */
  function NextId<T>(s: seq<T>, id: T -> int): (r: int)
    ensures r >= 1
    ensures forall k :: 0 <= k < |s| ==> id(s[k]) < r
  {
    if s == [] then 1
    else
      var rest := NextId(s[1..], id);
      if id(s[0]) < rest then rest else id(s[0]) + 1
  }

  /** Every element satisfying `p` overwritten with `v` (an `update ... where` on a table). */
  function Replace<T>(s: seq<T>, p: T -> bool, v: T): (r: seq<T>)
    ensures |r| == |s|
    ensures forall k :: 0 <= k < |s| ==> r[k] == (if p(s[k]) then v else s[k])
  {
    seq(|s|, k requires 0 <= k < |s| => if p(s[k]) then v else s[k])
  }

  /** After overwriting the matching rows with a row that still matches, the first match
      is the new row. */
  lemma ReplaceThenFirst<T>(s: seq<T>, p: T -> bool, v: T)
    requires p(v)
    requires exists k :: 0 <= k < |s| && p(s[k])
    ensures First(Replace(s, p, v), p) == Some(v)
  {
    var r := Replace(s, p, v);
    var k :| 0 <= k < |s| && p(s[k]);
    assert p(r[k]);
    var i := FirstIndex(r, p).value;
    var before := s[i];
    assert r[i] == (if p(before) then v else before);
  }

  /** Overwriting, with a row that still satisfies `q`, the rows of `p` that include the first
      match of `q` makes the new row the first match of `q`. */
  lemma ReplaceFirstMatch<T>(s: seq<T>, p: T -> bool, q: T -> bool, v: T)
    requires First(s, q).Some? && p(First(s, q).value) && q(v)
    ensures First(Replace(s, p, v), q) == Some(v)
  {
    var r := Replace(s, p, v);
    var i := FirstIndex(s, q).value;
    assert r[i] == v;
    var j := FirstIndex(r, q).value;
    if !p(s[j]) {
      assert r[j] == s[j] && q(s[j]);
      assert j >= i;
    }
  }

  /** No element occurs twice. */
  predicate Distinct<T(==)>(s: seq<T>) {
    forall i, j :: 0 <= i < j < |s| ==> s[i] != s[j]
  }

  /** The elements of `s` as a set (the keys a dict comprehension over `s` ends up with). */
  function Elements<T>(s: seq<T>): set<T> {
    set x | x in s
  }

  /** A sequence has at least as many positions as distinct elements, and exactly as many
      when no element repeats. */
  lemma {:induction false} ElementsCard<T>(s: seq<T>)
    ensures |Elements(s)| <= |s|
    ensures |Elements(s)| == |s| <==> Distinct(s)
  {
    if s != [] {
      var t := s[1..];
      ElementsCard(t);
      assert Elements(s) == {s[0]} + Elements(t) by {
        assert forall x :: x in s <==> x == s[0] || x in t by {
          assert s == [s[0]] + t;
        }
      }
      if s[0] in t {
        assert Elements(s) == Elements(t);
        var j :| 0 <= j < |t| && t[j] == s[0];
        assert s[0] == s[j + 1];
        assert !Distinct(s);
      } else {
        assert |Elements(s)| == 1 + |Elements(t)|;
        assert Distinct(s) <==> Distinct(t) by {
          if Distinct(t) {
            forall i, j | 0 <= i < j < |s| ensures s[i] != s[j] {
              if i > 0 {
                assert s[i] == t[i - 1] && s[j] == t[j - 1];
              } else {
                assert s[j] == t[j - 1];
              }
            }
          }
          if Distinct(s) {
            forall i, j | 0 <= i < j < |t| ensures t[i] != t[j] {
              assert t[i] == s[i + 1] && t[j] == s[j + 1];
            }
          }
        }
      }
    }
  }

  /** A subset of the elements of `s` has as many members as `s` has positions exactly
      when it is all of them and `s` has no repeats. */
  lemma SubsetCard<T>(a: set<T>, s: seq<T>)
    requires a <= Elements(s)
    ensures |a| == |s| <==> a == Elements(s) && Distinct(s)
  {
    ElementsCard(s);
    if a != Elements(s) {
      var x :| x in Elements(s) && x !in a;
      var b := Elements(s) - {x};
      assert a <= b;
      assert Elements(s) == b + {x};
      SubsetSmaller(a, b);
      assert |Elements(s)| == |b| + 1;
    }
  }

  lemma SubsetSmaller<T>(a: set<T>, b: set<T>)
    requires a <= b
    ensures |a| <= |b|
  {
    assert b == a + (b - a);
    assert a * (b - a) == {};
  }

  lemma ElementsSnoc<T>(s: seq<T>, x: T)
    ensures Elements(s + [x]) == Elements(s) + {x}
  {
    assert forall y :: y in s + [x] <==> y in s || y == x;
  }

  /** Overwriting the rows that satisfy `p` with a row outside `h` leaves no row in `h`
      when the only row in `h` was one of those overwritten. */
  lemma ReplaceRetires<T>(s: seq<T>, p: T -> bool, v: T, h: T -> bool, i: nat)
    requires i < |s| && h(s[i]) && p(s[i]) && !h(v)
    requires forall j :: 0 <= j < |s| && h(s[j]) ==> j == i
    ensures forall k :: 0 <= k < |Replace(s, p, v)| ==> !h(Replace(s, p, v)[k])
  {
    var r := Replace(s, p, v);
    forall k | 0 <= k < |r| ensures !h(r[k]) {
      var before := s[k];
      if !p(before) {
        assert k != i;
        assert r[k] == before;
      }
    }
  }

  /** Every element of a subsequence is found at some position of the whole. */
  lemma {:induction false} SubsequenceMembers<T>(a: seq<T>, b: seq<T>)
    requires IsSubsequence(a, b)
    ensures forall j :: 0 <= j < |a| ==> exists k :: 0 <= k < |b| && b[k] == a[j]
    decreases |b|
  {
    if a != [] {
      if a[0] == b[0] && IsSubsequence(a[1..], b[1..]) {
        SubsequenceMembers(a[1..], b[1..]);
        forall j | 0 <= j < |a| ensures exists k :: 0 <= k < |b| && b[k] == a[j] {
          if j == 0 {
            assert b[0] == a[0];
          } else {
            assert a[j] == a[1..][j - 1];
            var k :| 0 <= k < |b[1..]| && b[1..][k] == a[1..][j - 1];
            assert b[k + 1] == a[j];
          }
        }
      } else {
        SubsequenceMembers(a, b[1..]);
        forall j | 0 <= j < |a| ensures exists k :: 0 <= k < |b| && b[k] == a[j] {
          var k :| 0 <= k < |b[1..]| && b[1..][k] == a[j];
          assert b[k + 1] == a[j];
        }
      }
    }
  }
}
