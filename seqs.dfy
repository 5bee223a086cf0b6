/** Table primitives over sequences in table order: the first-match lookup that
    Dapper's QueryFirstOrDefault performs, the row filter of a DELETE and the
    row-wise rewrite of an UPDATE. */
module Seqs {
  import opened Wrappers

  /** Index of the first element of `s` that satisfies `p`. */
  function FirstIndex<T>(s: seq<T>, p: T -> bool): (r: Option<nat>)
    ensures r.Some? ==> r.value < |s| && p(s[r.value])
    ensures r.Some? ==> forall j :: 0 <= j < r.value ==> !p(s[j])
    ensures r.None? <==> forall j :: 0 <= j < |s| ==> !p(s[j])
    decreases |s|
  {
    if |s| == 0 then None
    else if p(s[0]) then Some(0)
    else
      match FirstIndex(s[1..], p)
      case None => None
      case Some(i) =>
        assert forall j :: 1 <= j <= i ==> s[j] == s[1..][j - 1];
        Some(i + 1)
  }

  /** FirstIndex is determined by where `p` holds: two sequences of equal
      length on which `p` agrees index by index have the same first index. */
  lemma {:induction false} FirstIndexAgree<T>(s: seq<T>, t: seq<T>, p: T -> bool)
    requires |s| == |t| && forall j :: 0 <= j < |s| ==> p(s[j]) == p(t[j])
    ensures FirstIndex(s, p) == FirstIndex(t, p)
  {
    var a, b := FirstIndex(s, p), FirstIndex(t, p);
    if a.Some? {
      assert p(t[a.value]);
    }
    if b.Some? {
      assert p(s[b.value]);
    }
  }

  /** The first match in `a + b` is the first match in `a`, or failing that
      the first match in `b`. */
  lemma {:induction false} FirstIndexAppend<T>(a: seq<T>, b: seq<T>, p: T -> bool)
    ensures FirstIndex(a + b, p) ==
      match FirstIndex(a, p)
      case Some(i) => Some(i)
      case None => match FirstIndex(b, p) case Some(k) => Some(|a| + k) case None => None
  {
    var r := FirstIndex(a + b, p);
    var ra, rb := FirstIndex(a, p), FirstIndex(b, p);
    assert forall j :: 0 <= j < |a| ==> (a + b)[j] == a[j];
    assert forall j :: 0 <= j < |b| ==> (a + b)[|a| + j] == b[j];
    if r.Some? {
      if r.value < |a| {
        assert p(a[r.value]);
      } else {
        assert p(b[r.value - |a|]);
      }
    }
    if ra.Some? {
      assert p((a + b)[ra.value]);
    }
    if rb.Some? {
      assert p((a + b)[|a| + rb.value]);
    }
  }

  /** The first element of `s` that satisfies `p`, if there is one. */
  function FirstWhere<T(!new)>(s: seq<T>, p: T -> bool): (r: Option<T>)
    ensures r.Some? ==> r.value in s && p(r.value)
    ensures r.Some? ==> exists i :: 0 <= i < |s| && s[i] == r.value && forall j :: 0 <= j < i ==> !p(s[j])
    ensures r.None? <==> forall x :: x in s ==> !p(x)
  {
    match FirstIndex(s, p)
    case None => None
    case Some(i) => Some(s[i])
  }

  /** A rewrite that never changes whether `p` holds leaves the first match
      in place, rewritten. */
  lemma {:induction false} FirstWhereUpdate<T(!new)>(s: seq<T>, q: T -> bool, f: T -> T, p: T -> bool)
    requires forall j :: 0 <= j < |s| && q(s[j]) ==> p(f(s[j])) == p(s[j])
    ensures FirstWhere(UpdateWhere(s, q, f), p) ==
      match FirstWhere(s, p)
      case None => None
      case Some(x) => Some(if q(x) then f(x) else x)
  {
    FirstIndexAgree(UpdateWhere(s, q, f), s, p);
  }

  /** The first match in `a + b` is the first match in `a`, or failing that
      the first match in `b`. */
  lemma {:induction false} FirstWhereAppend<T(!new)>(a: seq<T>, b: seq<T>, p: T -> bool)
    ensures FirstWhere(a + b, p) == if FirstWhere(a, p).Some? then FirstWhere(a, p) else FirstWhere(b, p)
  {
    FirstIndexAppend(a, b, p);
    assert forall j :: 0 <= j < |a| ==> (a + b)[j] == a[j];
    assert forall j :: 0 <= j < |b| ==> (a + b)[|a| + j] == b[j];
  }

  /** Dropping an element that does not satisfy `p` changes neither the
      first match nor which matching elements are present. */
  lemma {:induction false} FirstWhereSkip<T(!new)>(pre: seq<T>, x: T, post: seq<T>, p: T -> bool)
    requires !p(x)
    ensures FirstWhere(pre + post, p) == FirstWhere(pre + ([x] + post), p)
    ensures forall y :: p(y) ==> (y in pre + post <==> y in pre + ([x] + post))
  {
    FirstWhereAppend(pre, [x] + post, p);
    FirstWhereAppend([x], post, p);
    FirstWhereAppend(pre, post, p);
    assert FirstWhere([x], p).None?;
  }

  /** The elements of `s` that satisfy `p`, in their original order. */
  function Filter<T(!new)>(s: seq<T>, p: T -> bool): (r: seq<T>)
    ensures |r| <= |s|
    decreases |s|
  {
    if |s| == 0 then []
    else if p(s[0]) then [s[0]] + Filter(s[1..], p)
    else Filter(s[1..], p)
  }

  /** Filter keeps exactly the elements that satisfy `p`. */
  lemma {:induction false} FilterMembers<T(!new)>(s: seq<T>, p: T -> bool)
    ensures forall x :: x in Filter(s, p) <==> x in s && p(x)
    decreases |s|
  {
    if |s| > 0 {
      var tail := s[1..];
      FilterMembers(tail, p);
      assert s == [s[0]] + tail;
      forall x
        ensures x in s <==> x == s[0] || x in tail
      {
      }
    }
  }

  /** Filter keeps the whole length exactly when every element satisfies `p`. */
  lemma {:induction false} FilterLength<T(!new)>(s: seq<T>, p: T -> bool)
    ensures |Filter(s, p)| == |s| <==> forall j :: 0 <= j < |s| ==> p(s[j])
    decreases |s|
  {
    if |s| > 0 {
      var tail := s[1..];
      assert forall j :: 0 <= j < |tail| ==> tail[j] == s[j + 1];
      FilterLength(tail, p);
      if !p(s[0]) {
        assert |Filter(s, p)| == |Filter(tail, p)| <= |tail|;
      }
    }
  }

  lemma {:induction false} FilterAppend<T(!new)>(a: seq<T>, b: seq<T>, p: T -> bool)
    ensures Filter(a + b, p) == Filter(a, p) + Filter(b, p)
    decreases |a|
  {
    if |a| == 0 {
      assert a + b == b;
    } else {
      var ab := a + b;
      assert ab[0] == a[0] && ab[1..] == a[1..] + b;
      FilterAppend(a[1..], b, p);
      var head := if p(a[0]) then [a[0]] else [];
      assert Filter(ab, p) == head + Filter(ab[1..], p);
      assert Filter(a, p) == head + Filter(a[1..], p);
    }
  }

  /** Filtering with a property every element has keeps the whole sequence. */
  lemma {:induction false} FilterAll<T(!new)>(s: seq<T>, p: T -> bool)
    ensures (forall j :: 0 <= j < |s| ==> p(s[j])) ==> Filter(s, p) == s
    decreases |s|
  {
    if |s| > 0 && forall j :: 0 <= j < |s| ==> p(s[j]) {
      var tail := s[1..];
      assert forall j :: 0 <= j < |tail| ==> tail[j] == s[j + 1];
      FilterAll(tail, p);
      assert p(s[0]);
      assert Filter(s, p) == [s[0]] + Filter(tail, p);
      assert [s[0]] + tail == s;
    }
  }

  /** Filtering by a property every match has keeps the first match. */
  lemma {:induction false} FirstWhereFilter<T(!new)>(s: seq<T>, q: T -> bool, p: T -> bool)
    requires forall x :: p(x) ==> q(x)
    ensures FirstWhere(Filter(s, q), p) == FirstWhere(s, p)
    decreases |s|
  {
    if |s| > 0 {
      FirstWhereFilter(s[1..], q, p);
      assert s == [s[0]] + s[1..];
      FirstWhereAppend([s[0]], s[1..], p);
      if q(s[0]) {
        assert Filter(s, q) == [s[0]] + Filter(s[1..], q);
        FirstWhereAppend([s[0]], Filter(s[1..], q), p);
      }
    }
  }

  /** Filtering keeps the relative order of what it keeps, so a relation
      that holds between every earlier and later element still holds. */
  lemma {:induction false} FilterPairwise<T(!new)>(s: seq<T>, p: T -> bool, r: (T, T) -> bool)
    requires forall i, j :: 0 <= i < j < |s| ==> r(s[i], s[j])
    ensures forall i, j :: 0 <= i < j < |Filter(s, p)| ==> r(Filter(s, p)[i], Filter(s, p)[j])
    decreases |s|
  {
    if |s| > 0 {
      var rest := Filter(s[1..], p);
      assert forall a :: 1 <= a < |s| ==> s[a] == s[1..][a - 1];
      FilterPairwise(s[1..], p, r);
      FilterMembers(s[1..], p);
      if p(s[0]) {
        var f := Filter(s, p);
        assert f == [s[0]] + rest;
        forall i, j | 0 <= i < j < |f|
          ensures r(f[i], f[j])
        {
          if i == 0 {
            assert f[j] == rest[j - 1];
            assert rest[j - 1] in rest;
            var k :| 0 <= k < |s[1..]| && s[1..][k] == f[j];
            assert s[k + 1] == f[j];
          } else {
            assert f[i] == rest[i - 1] && f[j] == rest[j - 1];
          }
        }
      }
    }
  }

  /** Filtering out exactly one element from the middle. */
  lemma {:induction false} FilterDropsOne<T(!new)>(pre: seq<T>, x: T, post: seq<T>, p: T -> bool)
    requires forall k :: 0 <= k < |pre| ==> p(pre[k])
    requires forall k :: 0 <= k < |post| ==> p(post[k])
    requires !p(x)
    ensures Filter(pre + ([x] + post), p) == pre + post
  {
    FilterAppend(pre, [x] + post, p);
    FilterAppend([x], post, p);
    FilterAll(pre, p);
    FilterAll(post, p);
    assert Filter([x], p) == [];
  }

  /** Filtering out exactly the element at j leaves the rest, in order. */
  lemma {:induction false} FilterOmitsOne<T(!new)>(s: seq<T>, p: T -> bool, j: nat)
    requires j < |s| && !p(s[j])
    requires forall k :: 0 <= k < |s| && k != j ==> p(s[k])
    ensures Filter(s, p) == s[..j] + s[j + 1..]
  {
    var pre, post := s[..j], s[j + 1..];
    assert s == pre + ([s[j]] + post);
    assert forall k :: 0 <= k < |pre| ==> pre[k] == s[k];
    assert forall k :: 0 <= k < |post| ==> post[k] == s[j + 1 + k];
    FilterDropsOne(pre, s[j], post, p);
  }

  /** `s` with every element satisfying `p` replaced by its image under `f`. */
  function UpdateWhere<T>(s: seq<T>, p: T -> bool, f: T -> T): (r: seq<T>)
    ensures |r| == |s|
    ensures forall j :: 0 <= j < |s| ==> r[j] == if p(s[j]) then f(s[j]) else s[j]
  {
    seq(|s|, j requires 0 <= j < |s| => if p(s[j]) then f(s[j]) else s[j])
  }

  /** Some element of `s` satisfies `p`: the rows-affected > 0 of a command. */
  predicate Any<T>(s: seq<T>, p: T -> bool)
  {
    exists j :: 0 <= j < |s| && p(s[j])
  }
}
