/** Facts about finite collections that the table construction needs for its
    termination arguments: interned lists never hold duplicates, so they are
    no longer than the finite universe they draw from, and every subset of a
    finite universe is one of finitely many. */
module Collections {

  /** No value occurs twice in `s` (what interning keeps true of its lists). */
  ghost predicate NoDup<T>(s: seq<T>) {
    forall i, j :: 0 <= i < j < |s| ==> s[i] != s[j]
  }

  /** The elements of a sequence, as a set. */
  function Elems<T>(s: seq<T>): set<T> {
    set x | x in s
  }

  /** The integers 0..k-1 as a set. */
  function Below(k: nat): (r: set<int>)
    ensures forall x :: x in r <==> 0 <= x < k
    ensures |r| == k
  {
    if k == 0 then {} else Below(k - 1) + {k - 1}
  }

  /** A set of integers inside 0..k-1 has at most k elements. */
  lemma BoundedSetSize(s: set<int>, k: nat)
    requires forall x :: x in s ==> 0 <= x < k
    ensures |s| <= k
  {
    assert s <= Below(k);
    SubsetSize(s, Below(k));
  }

  lemma SubsetSize<T>(s: set<T>, u: set<T>)
    requires s <= u
    ensures |s| <= |u|
  {
    assert u == s + (u - s);
  }

  /** Extending a list that extends `a` extends `a`. */
  lemma PrefixTrans<T>(a: seq<T>, b: seq<T>, c: seq<T>)
    requires a <= b && b <= c
    ensures a <= c
  {
    assert a == b[..|a|] == c[..|b|][..|a|];
  }

  /** A duplicate-free sequence drawn from `u` is no longer than `u`. */
  lemma {:induction false} NoDupBound<T>(s: seq<T>, u: set<T>)
    requires NoDup(s)
    requires forall i :: 0 <= i < |s| ==> s[i] in u
    ensures |s| <= |u|
  {
    if s != [] {
      var last := s[|s| - 1];
      var front := s[..|s| - 1];
      forall i | 0 <= i < |front|
        ensures front[i] in u - {last}
      {
        assert front[i] == s[i];
      }
      NoDupBound(front, u - {last});
    }
  }

  /** One more element of a prefix adds that element. */
  lemma ElemsPrefixNext<T>(q: seq<T>, m: int)
    requires 0 <= m < |q|
    ensures Elems(q[..m + 1]) == Elems(q[..m]) + {q[m]}
  {
    assert q[..m + 1] == q[..m] + [q[m]];
  }

  /** Taking the head off a work list and extending the rest keeps every
      element either the head or still listed. */
  lemma PopFrontElems<T>(open: seq<T>, open': seq<T>)
    requires |open| > 0 && open[1..] <= open'
    ensures Elems(open) <= {open[0]} + Elems(open')
  {
    forall x | x in open ensures x in {open[0]} + Elems(open') {
      var k :| 0 <= k < |open| && open[k] == x;
      if k > 0 {
        assert open'[k - 1] == open[1..][k - 1] == x;
      }
    }
  }

  /** A duplicate-free sequence has as many elements as its set. */
  lemma {:induction false} ElemsCard<T>(s: seq<T>)
    requires NoDup(s)
    ensures |Elems(s)| == |s|
  {
    if s != [] {
      var front := s[..|s| - 1];
      assert NoDup(front);
      ElemsCard(front);
      assert Elems(s) == Elems(front) + {s[|s| - 1]};
      assert s[|s| - 1] !in Elems(front);
    }
  }

  /** Every subset of 0..k-1, built one element at a time. */
  ghost function Subsets(k: nat): set<set<int>>
  {
    if k == 0 then {{}}
    else
      var rest := Subsets(k - 1);
      rest + set s | s in rest :: s + {k - 1}
  }

  lemma {:induction false} SubsetOfBelow(s: set<int>, k: nat)
    requires forall x :: x in s ==> 0 <= x < k
    ensures s in Subsets(k)
  {
    if k > 0 {
      var t := s - {k - 1};
      SubsetOfBelow(t, k - 1);
      var rest := Subsets(k - 1);
      assert Subsets(k) == rest + set u | u in rest :: u + {k - 1};
      if k - 1 in s {
        assert s == t + {k - 1};
        assert t + {k - 1} in set u | u in rest :: u + {k - 1};
      } else {
        assert s == t;
      }
    } else {
      assert s == {} by {
        forall x | x in s ensures false { }
      }
    }
  }

  /** A HashSet enumerated in some order: any duplicate-free listing of `s`. */
  method Enumerate<T>(s: set<T>) returns (q: seq<T>)
    ensures NoDup(q)
    ensures forall x :: x in q <==> x in s
    ensures |q| == |s|
  {
    q := [];
    var left := s;
    while left != {}
      invariant left <= s
      invariant NoDup(q)
      invariant forall x :: x in q <==> x in s && x !in left
      invariant |q| + |left| == |s|
      decreases left
    {
      var x :| x in left;
      q := q + [x];
      left := left - {x};
    }
  }
}
