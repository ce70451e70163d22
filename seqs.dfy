/**
 * Sequence helpers shared by the tree modules: one-level flattening (`flatMap`, `AddRange` in a loop)
 * and the first element satisfying a predicate (`Array.prototype.find`).
 */
module Seqs {
  import opened Wrappers

  /** The concatenation of the inner sequences, in order. */
  function Flatten<T>(ss: seq<seq<T>>): (r: seq<T>)
    decreases |ss|
  {
    if |ss| == 0 then [] else ss[0] + Flatten(ss[1..])
  }

  /** The sum of the inner lengths; an independent count for the length of a flattening. */
  function TotalLength<T>(ss: seq<seq<T>>): nat
    decreases |ss|
  {
    if |ss| == 0 then 0 else |ss[|ss| - 1]| + TotalLength(ss[..|ss| - 1])
  }

  lemma {:induction false} FlattenAppend<T>(a: seq<seq<T>>, b: seq<seq<T>>)
    ensures Flatten(a + b) == Flatten(a) + Flatten(b)
    decreases |a|
  {
    if |a| == 0 {
      assert a + b == b;
    } else {
      assert (a + b)[0] == a[0];
      assert (a + b)[1..] == a[1..] + b;
      FlattenAppend(a[1..], b);
    }
  }

  /** Flattening loses and adds nothing: its length is the sum of the inner lengths. */
  lemma {:induction false} FlattenLength<T>(ss: seq<seq<T>>)
    ensures |Flatten(ss)| == TotalLength(ss)
    decreases |ss|
  {
    if |ss| > 0 {
      var init := ss[..|ss| - 1];
      assert ss == init + [ss[|ss| - 1]];
      FlattenAppend(init, [ss[|ss| - 1]]);
      assert Flatten([ss[|ss| - 1]]) == ss[|ss| - 1] + Flatten([]);
      FlattenLength(init);
    }
  }

  /**
   * Flattening two lists of groups of the same size where the i-th group of one holds the same elements
   * as the i-th group from the end of the other gives the same elements: visiting the groups in the
   * opposite order changes the order of the elements, never which ones appear.
   */
  lemma {:induction false} FlattenReversedBag<T>(ss: seq<seq<T>>, ts: seq<seq<T>>)
    requires |ss| == |ts|
    requires forall i :: 0 <= i < |ss| ==> multiset(ss[i]) == multiset(ts[|ts| - 1 - i])
    ensures multiset(Flatten(ss)) == multiset(Flatten(ts))
    decreases |ss|
  {
    if |ss| > 0 {
      var n := |ts|;
      var init := ts[..n - 1];
      assert ts == init + [ts[n - 1]];
      FlattenAppend(init, [ts[n - 1]]);
      assert Flatten([ts[n - 1]]) == ts[n - 1] + Flatten([]);
      forall i | 0 <= i < |ss[1..]|
        ensures multiset(ss[1..][i]) == multiset(init[|init| - 1 - i])
      {
        assert ss[1..][i] == ss[i + 1];
        assert init[|init| - 1 - i] == ts[n - 1 - (i + 1)];
      }
      FlattenReversedBag(ss[1..], init);
      assert multiset(Flatten(ss)) == multiset(ss[0]) + multiset(Flatten(ss[1..]));
      assert multiset(Flatten(ts)) == multiset(Flatten(init)) + multiset(ts[n - 1]);
    }
  }

  /** The first element satisfying `p`, scanning from the front. */
  function FirstMatch<T>(s: seq<T>, p: T -> bool): (r: Option<T>)
    ensures r.None? <==> forall i :: 0 <= i < |s| ==> !p(s[i])
    ensures r.Some? ==> exists k :: 0 <= k < |s| && s[k] == r.value && p(s[k]) && forall j :: 0 <= j < k ==> !p(s[j])
    decreases |s|
  {
    if |s| == 0 then None
    else if p(s[0]) then Some(s[0])
    else
      var r := FirstMatch(s[1..], p);
      assert forall i :: 1 <= i < |s| ==> s[i] == s[1..][i - 1];
      r
  }

  /** Searching a concatenation searches the first part and then the second. */
  lemma {:induction false} FirstMatchAppend<T>(a: seq<T>, b: seq<T>, p: T -> bool)
    ensures FirstMatch(a + b, p) == if FirstMatch(a, p).Some? then FirstMatch(a, p) else FirstMatch(b, p)
    decreases |a|
  {
    if |a| == 0 {
      assert a + b == b;
    } else {
      assert (a + b)[0] == a[0];
      assert (a + b)[1..] == a[1..] + b;
      FirstMatchAppend(a[1..], b, p);
    }
  }

  /** A sequence without repetitions. */
  predicate Distinct<T(==)>(s: seq<T>)
  {
    forall i, j :: 0 <= i < j < |s| ==> s[i] != s[j]
  }

  /** A sequence without repetitions, all of whose elements occur in `q`, is no longer than `q` (pigeonhole). */
  lemma {:induction false} DistinctWithin<T>(p: seq<T>, q: seq<T>)
    requires Distinct(p)
    requires forall i :: 0 <= i < |p| ==> p[i] in q
    ensures |p| <= |q|
    decreases |q|
  {
    assert |p| > 0 ==> p[0] in q;
    if |q| > 0 {
      var y := q[|q| - 1];
      var init := q[..|q| - 1];
      if y in p {
        var k :| 0 <= k < |p| && p[k] == y;
        var rest := p[..k] + p[k + 1..];
        assert forall i :: 0 <= i < |rest| ==> rest[i] == (if i < k then p[i] else p[i + 1]);
        forall i | 0 <= i < |rest|
          ensures rest[i] in init
        {
          var j := if i < k then i else i + 1;
          assert rest[i] == p[j] && p[j] != y;
          assert p[j] in q;
          assert q == init + [y];
        }
        DistinctWithin(rest, init);
        assert |rest| == |p| - 1;
        assert |init| == |q| - 1;
      } else {
        forall i | 0 <= i < |p|
          ensures p[i] in init
        {
          assert p[i] in q;
          assert q == init + [y];
        }
        DistinctWithin(p, init);
      }
    }
  }
}
