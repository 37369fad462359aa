/**
 * The two JavaScript array searches the core relies on, over sequences:
 * `filter`, which keeps the accepted elements in order, and `find`, which
 * gives the first accepted element.
 */
module Lists {
  import opened Wrappers

  /** `Array.prototype.filter`: the order-preserving sublist of the elements `keep` accepts. */
  function Filter<T>(s: seq<T>, keep: T -> bool): (r: seq<T>)
    ensures |r| <= |s|
  {
    if s == [] then []
    else
      var rest := Filter(s[1..], keep);
      if keep(s[0]) then [s[0]] + rest else rest
  }

  /** Every kept element is an accepted element of the input. */
  lemma {:induction false} FilterSound<T>(s: seq<T>, keep: T -> bool)
    ensures forall k :: 0 <= k < |Filter(s, keep)| ==> Filter(s, keep)[k] in s && keep(Filter(s, keep)[k])
  {
    if s != [] {
      var rest := s[1..];
      FilterSound(rest, keep);
      var r := Filter(s, keep);
      var t := Filter(rest, keep);
      assert forall x :: x in rest ==> x in s;
      if keep(s[0]) {
        assert r == [s[0]] + t;
        assert forall k :: 1 <= k < |r| ==> r[k] == t[k - 1];
      } else {
        assert r == t;
      }
    }
  }

  /** Every accepted element of the input is kept. */
  lemma {:induction false} FilterComplete<T>(s: seq<T>, keep: T -> bool)
    ensures forall k :: 0 <= k < |s| && keep(s[k]) ==> s[k] in Filter(s, keep)
  {
    if s != [] {
      var rest := s[1..];
      FilterComplete(rest, keep);
      var t := Filter(rest, keep);
      assert forall x :: x in t ==> x in Filter(s, keep);
      assert forall k :: 1 <= k < |s| ==> s[k] == rest[k - 1];
    }
  }

  /** Filtering a concatenation filters each part, keeping the parts' order. */
  lemma {:induction false} FilterAppend<T>(a: seq<T>, b: seq<T>, keep: T -> bool)
    ensures Filter(a + b, keep) == Filter(a, keep) + Filter(b, keep)
  {
    if a != [] {
      var rest := a[1..];
      FilterAppend(rest, b, keep);
      assert (a + b)[0] == a[0];
      assert (a + b)[1..] == rest + b;
    } else {
      assert a + b == b;
    }
  }

  /** `Array.prototype.find`: the first element `p` accepts, if any. */
  function Find<T>(s: seq<T>, p: T -> bool): (r: Option<T>)
    ensures r.None? <==> forall k :: 0 <= k < |s| ==> !p(s[k])
    ensures r.Some? ==> exists k :: 0 <= k < |s| && s[k] == r.value && p(s[k]) && forall j :: 0 <= j < k ==> !p(s[j])
  {
    if s == [] then None
    else if p(s[0]) then Some(s[0])
    else
      var r := Find(s[1..], p);
      assert forall k :: 1 <= k < |s| ==> s[k] == s[1..][k - 1];
      assert r.Some? ==> exists k :: 0 <= k < |s| && s[k] == r.value && p(s[k]) && forall j :: 0 <= j < k ==> !p(s[j]) by {
        if r.Some? {
          var k :| 0 <= k < |s[1..]| && s[1..][k] == r.value && p(s[1..][k]) && forall j :: 0 <= j < k ==> !p(s[1..][j]);
          assert forall j :: 1 <= j < k + 1 ==> s[j] == s[1..][j - 1];
          assert s[k + 1] == r.value;
        }
      }
      r
  }

  /** The first element `q` accepts among those `keep` accepts, in the original order. */
  predicate FirstOfBoth<T>(s: seq<T>, keep: T -> bool, q: T -> bool, k: int) {
    && 0 <= k < |s|
    && keep(s[k]) && q(s[k])
    && forall j :: 0 <= j < k ==> !(keep(s[j]) && q(s[j]))
  }

  /**
   * Searching a filtered list finds the first element of the whole list that
   * passes both tests, and finds nothing exactly when no element passes both.
   */
  lemma {:induction false} FindAfterFilter<T>(s: seq<T>, keep: T -> bool, q: T -> bool)
    ensures Find(Filter(s, keep), q).None? <==> forall k :: 0 <= k < |s| ==> !(keep(s[k]) && q(s[k]))
    ensures Find(Filter(s, keep), q).Some? ==>
      exists k :: FirstOfBoth(s, keep, q, k) && s[k] == Find(Filter(s, keep), q).value
  {
    if s != [] {
      var rest := s[1..];
      FindAfterFilter(rest, keep, q);
      var t := Filter(rest, keep);
      var r := Find(Filter(s, keep), q);
      assert forall k :: 1 <= k < |s| ==> s[k] == rest[k - 1];
      if keep(s[0]) {
        var u := [s[0]] + t;
        assert Filter(s, keep) == u;
        assert u[1..] == t;
        if q(s[0]) {
          assert FirstOfBoth(s, keep, q, 0);
        } else {
          assert r == Find(t, q);
          SkipFirst(s, keep, q, r);
        }
      } else {
        assert r == Find(t, q);
        SkipFirst(s, keep, q, r);
      }
    }
  }

  /** When the first element fails one test, the answer on the rest is the answer on the whole list. */
  lemma SkipFirst<T>(s: seq<T>, keep: T -> bool, q: T -> bool, r: Option<T>)
    requires s != [] && !(keep(s[0]) && q(s[0]))
    requires r.None? <==> forall k :: 0 <= k < |s| - 1 ==> !(keep(s[1..][k]) && q(s[1..][k]))
    requires r.Some? ==> exists k :: FirstOfBoth(s[1..], keep, q, k) && s[1..][k] == r.value
    ensures r.None? <==> forall k :: 0 <= k < |s| ==> !(keep(s[k]) && q(s[k]))
    ensures r.Some? ==> exists k :: FirstOfBoth(s, keep, q, k) && s[k] == r.value
  {
    var rest := s[1..];
    assert forall k :: 1 <= k < |s| ==> s[k] == rest[k - 1];
    if r.Some? {
      var k :| FirstOfBoth(rest, keep, q, k) && rest[k] == r.value;
      assert FirstOfBoth(s, keep, q, k + 1);
    }
  }
}
