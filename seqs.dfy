/** Array operations the app uses through the JavaScript standard library:
    `filter`, `find`, `findIndex`, `indexOf`, `splice(i, 1)` and the
    `indexOf`-based dedup idiom. */
module Seqs {
  import opened Wrappers

  /** `s.filter(p)`. How many copies of a value stay is `FilterMultiset`. */
  function Filter<T>(s: seq<T>, p: T -> bool): (r: seq<T>)
    ensures |r| <= |s|
    ensures forall i :: 0 <= i < |r| ==> r[i] in s && p(r[i])
    ensures forall i :: 0 <= i < |s| && p(s[i]) ==> s[i] in r
  {
    if |s| == 0 then [] else (if p(s[0]) then [s[0]] else []) + Filter(s[1..], p)
  }

  /** A non-empty sequence is its head before its tail. */
  lemma HeadTail<T>(s: seq<T>)
    requires |s| >= 1
    ensures s == [s[0]] + s[1..]
  {
  }

  /** A non-empty sequence is its front before its last element. */
  lemma FrontLast<T>(s: seq<T>)
    requires |s| >= 1
    ensures s == s[..|s| - 1] + [s[|s| - 1]]
  {
  }

  /** `a` is `b` with some elements left out, the rest in their order. */
  predicate IsSubsequence<T(==)>(a: seq<T>, b: seq<T>)
    decreases |b|
  {
    if |a| == 0 then true
    else if |b| == 0 then false
    else if a[0] == b[0] then IsSubsequence(a[1..], b[1..])
    else IsSubsequence(a, b[1..])
  }

  lemma {:induction false} FilterIsSubsequence<T>(s: seq<T>, p: T -> bool)
    ensures IsSubsequence(Filter(s, p), s)
  {
    if |s| > 0 {
      FilterIsSubsequence(s[1..], p);
      if p(s[0]) {
        assert Filter(s, p) == [s[0]] + Filter(s[1..], p);
        assert (Filter(s, p))[1..] == Filter(s[1..], p);
      } else {
        assert Filter(s, p) == Filter(s[1..], p);
        if |Filter(s, p)| > 0 {
          // the head of the filtered list satisfies p, so it is not s[0]
          assert p(Filter(s, p)[0]);
        }
      }
    }
  }

  /** The filter keeps every copy of a passing value and no copy of a
      failing one. */
  lemma {:induction false} FilterMultiset<T>(s: seq<T>, p: T -> bool)
    ensures forall x :: multiset(Filter(s, p))[x] == (if p(x) then multiset(s)[x] else 0)
  {
    if |s| > 0 {
      FilterMultiset(s[1..], p);
      HeadTail(s);
      assert multiset(s) == multiset{s[0]} + multiset(s[1..]);
      assert multiset(Filter(s, p)) == multiset(if p(s[0]) then [s[0]] else []) + multiset(Filter(s[1..], p));
    }
  }

  /** A filter whose predicate holds everywhere keeps the whole sequence. */
  lemma {:induction false} FilterAll<T>(s: seq<T>, p: T -> bool)
    requires forall i :: 0 <= i < |s| ==> p(s[i])
    ensures Filter(s, p) == s
  {
    if |s| > 0 {
      FilterAll(s[1..], p);
    }
  }

  /** A filter whose predicate holds nowhere keeps nothing. */
  lemma {:induction false} FilterNone<T>(s: seq<T>, p: T -> bool)
    requires forall i :: 0 <= i < |s| ==> !p(s[i])
    ensures Filter(s, p) == []
  {
    if |s| > 0 {
      FilterNone(s[1..], p);
    }
  }

  /** Filtering with two predicates that agree on every element gives the
      same result. */
  lemma {:induction false} FilterCongruent<T>(s: seq<T>, p: T -> bool, q: T -> bool)
    requires forall i :: 0 <= i < |s| ==> p(s[i]) == q(s[i])
    ensures Filter(s, p) == Filter(s, q)
  {
    if |s| > 0 {
      FilterCongruent(s[1..], p, q);
    }
  }

  /** A filter looks at the head first. */
  lemma FilterCons<T>(x: T, s: seq<T>, p: T -> bool)
    ensures Filter([x] + s, p) == (if p(x) then [x] else []) + Filter(s, p)
  {
    assert ([x] + s)[1..] == s;
  }

  lemma {:induction false} FilterAppend<T>(s: seq<T>, t: seq<T>, p: T -> bool)
    ensures Filter(s + t, p) == Filter(s, p) + Filter(t, p)
  {
    if |s| == 0 {
      assert s + t == t;
    } else {
      assert (s + t)[1..] == s[1..] + t;
      FilterAppend(s[1..], t, p);
    }
  }

  /** A filter keeps nothing exactly when no element satisfies `p`. */
  lemma FilterEmptyIff<T>(s: seq<T>, p: T -> bool)
    ensures |Filter(s, p)| == 0 <==> forall k :: 0 <= k < |s| ==> !p(s[k])
  {
    if |Filter(s, p)| > 0 {
      var x := Filter(s, p)[0];
      var k :| 0 <= k < |s| && s[k] == x;
    }
  }

  /** The last element a filter keeps is the last element of `s` that
      satisfies `p`: nothing after it does. */
  lemma FilterLast<T>(s: seq<T>, p: T -> bool)
    requires |Filter(s, p)| > 0
    ensures exists i :: (0 <= i < |s| && s[i] == Filter(s, p)[|Filter(s, p)| - 1] && p(s[i])
                         && forall k :: i < k < |s| ==> !p(s[k]))
  {
    var i := FilterLastIndex(s, p);
  }

  /** The position of the last kept element. */
  lemma {:induction false} FilterLastIndex<T>(s: seq<T>, p: T -> bool) returns (i: nat)
    requires |Filter(s, p)| > 0
    ensures i < |s| && s[i] == Filter(s, p)[|Filter(s, p)| - 1] && p(s[i])
    ensures forall k :: i < k < |s| ==> !p(s[k])
  {
    var t := Filter(s[1..], p);
    assert Filter(s, p) == (if p(s[0]) then [s[0]] else []) + t;
    if |t| > 0 {
      var i' := FilterLastIndex(s[1..], p);
      forall k | i' + 1 < k < |s|
        ensures !p(s[k])
      {
        assert s[k] == s[1..][k - 1];
      }
      i := i' + 1;
    } else {
      forall k | 0 < k < |s|
        ensures !p(s[k])
      {
        assert s[k] == s[1..][k - 1];
      }
      i := 0;
    }
  }

  /** Number of elements of `s` that satisfy `p`. */
  function Count<T>(s: seq<T>, p: T -> bool): (n: nat)
    ensures n <= |s|
  {
    |Filter(s, p)|
  }

  /** `s.findIndex(p)`: the first index whose element satisfies `p`, or -1. */
  function FindIndex<T>(s: seq<T>, p: T -> bool): (i: int)
    ensures -1 <= i < |s|
    ensures i == -1 <==> forall k :: 0 <= k < |s| ==> !p(s[k])
    ensures 0 <= i ==> p(s[i]) && forall k :: 0 <= k < i ==> !p(s[k])
    decreases |s|
  {
    if |s| == 0 then -1
    else if p(s[0]) then 0
    else
      var j := FindIndex(s[1..], p);
      if j == -1 then -1 else j + 1
  }

  /** `s.find(p)`: the first element satisfying `p`, or `undefined`. */
  function Find<T>(s: seq<T>, p: T -> bool): (r: Option<T>)
    ensures r.None? <==> forall k :: 0 <= k < |s| ==> !p(s[k])
    ensures r.Some? ==> exists i :: 0 <= i < |s| && s[i] == r.value && p(s[i]) && forall k :: 0 <= k < i ==> !p(s[k])
  {
    var i := FindIndex(s, p);
    if i == -1 then None else Some(s[i])
  }

  /** `find` on a non-empty sequence: the head if it matches, else the find
      of the tail. */
  lemma FindCons<T>(s: seq<T>, p: T -> bool)
    requires |s| > 0
    ensures Find(s, p) == if p(s[0]) then Some(s[0]) else Find(s[1..], p)
  {
    var j := FindIndex(s[1..], p);
    assert j != -1 ==> s[1..][j] == s[j + 1];
  }

  /** The first element `filter(p)` keeps is the element `find(p)` returns. */
  lemma {:induction false} FilterHeadIsFind<T>(s: seq<T>, p: T -> bool)
    ensures |Filter(s, p)| > 0 <==> Find(s, p).Some?
    ensures |Filter(s, p)| > 0 ==> Filter(s, p)[0] == Find(s, p).value
  {
    if |s| > 0 {
      FilterHeadIsFind(s[1..], p);
      FindCons(s, p);
      if p(s[0]) {
        assert Filter(s, p)[0] == s[0];
      } else {
        assert Filter(s, p) == Filter(s[1..], p);
      }
    }
  }

  /** Filtering out only elements that `p` rejects does not change what
      `find(p)` returns. */
  lemma {:induction false} FindAfterFilter<T>(s: seq<T>, q: T -> bool, p: T -> bool)
    requires forall i :: 0 <= i < |s| && p(s[i]) ==> q(s[i])
    ensures Find(Filter(s, q), p) == Find(s, p)
  {
    if |s| > 0 {
      FindAfterFilter(s[1..], q, p);
      FindCons(s, p);
      if q(s[0]) {
        FindOfKeptHead(s, q, p);
      } else {
        assert Filter(s, q) == Filter(s[1..], q);
      }
    }
  }

  /** When `q` keeps the head, `find(p)` on the filtered list looks at the
      head first. */
  lemma FindOfKeptHead<T>(s: seq<T>, q: T -> bool, p: T -> bool)
    requires |s| > 0 && q(s[0])
    ensures Find(Filter(s, q), p) == if p(s[0]) then Some(s[0]) else Find(Filter(s[1..], q), p)
  {
    var t := [s[0]] + Filter(s[1..], q);
    assert Filter(s, q) == t;
    FindCons(t, p);
    assert t[1..] == Filter(s[1..], q);
  }

  /** `s.indexOf(x)`: the first index holding `x`, or -1. */
  function IndexOf<T(==)>(s: seq<T>, x: T): (i: int)
    ensures -1 <= i < |s|
    ensures i == -1 <==> x !in s
    ensures 0 <= i ==> s[i] == x && forall k :: 0 <= k < i ==> s[k] != x
    decreases |s|
  {
    if |s| == 0 then -1
    else if s[0] == x then 0
    else
      var j := IndexOf(s[1..], x);
      if j == -1 then -1 else j + 1
  }

  /** `s.splice(i, 1)` for a non-negative index: removes the element at `i`
      when there is one, and leaves the array alone when `i` is past its end. */
  function RemoveAt<T>(s: seq<T>, i: nat): (r: seq<T>)
    ensures i < |s| ==> |r| == |s| - 1
    ensures i < |s| ==> forall k :: 0 <= k < |r| ==> r[k] == if k < i then s[k] else s[k + 1]
    ensures i >= |s| ==> r == s
  {
    if i < |s| then s[..i] + s[i + 1..] else s
  }

  predicate Distinct<T(==)>(s: seq<T>)
  {
    forall i, j :: 0 <= i < j < |s| ==> s[i] != s[j]
  }

  /** The elements of `s[from..]` that are the first occurrence of their value
      in the whole of `s`: `s.filter((x, i, self) => self.indexOf(x) === i)`
      restricted to positions `from` and later. */
  function FirstOccurrencesFrom<T(==)>(s: seq<T>, from: nat): seq<T>
    requires from <= |s|
    decreases |s| - from
  {
    if from == |s| then []
    else (if IndexOf(s, s[from]) == from then [s[from]] else []) + FirstOccurrencesFrom(s, from + 1)
  }

  /** `s.filter((x, i, self) => self.indexOf(x) === i)`. */
  function Dedup<T(==)>(s: seq<T>): seq<T>
  {
    FirstOccurrencesFrom(s, 0)
  }

  lemma {:induction false} FirstOccurrencesFromMembers<T>(s: seq<T>, from: nat)
    requires from <= |s|
    ensures forall x :: x in FirstOccurrencesFrom(s, from) <==> exists k :: from <= k < |s| && s[k] == x && IndexOf(s, x) == k
    decreases |s| - from
  {
    if from < |s| {
      FirstOccurrencesFromMembers(s, from + 1);
    }
  }

  lemma {:induction false} FirstOccurrencesFromAreFirst<T>(s: seq<T>, from: nat)
    requires from <= |s|
    ensures forall i :: 0 <= i < |FirstOccurrencesFrom(s, from)| ==>
      from <= IndexOf(s, FirstOccurrencesFrom(s, from)[i])
    decreases |s| - from
  {
    if from < |s| {
      FirstOccurrencesFromAreFirst(s, from + 1);
    }
  }

  lemma {:induction false} FirstOccurrencesFromDistinct<T>(s: seq<T>, from: nat)
    requires from <= |s|
    ensures Distinct(FirstOccurrencesFrom(s, from))
    decreases |s| - from
  {
    if from < |s| {
      FirstOccurrencesFromDistinct(s, from + 1);
      FirstOccurrencesFromMembers(s, from + 1);
      var rest := FirstOccurrencesFrom(s, from + 1);
      if IndexOf(s, s[from]) == from {
        // every later kept element has its first index after `from`
        assert s[from] !in rest;
        assert FirstOccurrencesFrom(s, from) == [s[from]] + rest;
      }
    }
  }

  /** The dedup keeps exactly the values of `s`, each once. */
  lemma DedupMembers<T>(s: seq<T>)
    ensures forall x :: x in Dedup(s) <==> x in s
    ensures Distinct(Dedup(s))
  {
    FirstOccurrencesFromMembers(s, 0);
    FirstOccurrencesFromDistinct(s, 0);
    forall x | x in s
      ensures x in Dedup(s)
    {
      var k := IndexOf(s, x);
      assert 0 <= k < |s| && s[k] == x;
    }
  }

  lemma {:induction false} FirstOccurrencesFromOrdered<T>(s: seq<T>, from: nat)
    requires from <= |s|
    ensures forall i, j :: 0 <= i < j < |FirstOccurrencesFrom(s, from)| ==>
      IndexOf(s, FirstOccurrencesFrom(s, from)[i]) < IndexOf(s, FirstOccurrencesFrom(s, from)[j])
    decreases |s| - from
  {
    if from < |s| {
      FirstOccurrencesFromOrdered(s, from + 1);
      FirstOccurrencesFromAreFirst(s, from + 1);
      var rest := FirstOccurrencesFrom(s, from + 1);
      if IndexOf(s, s[from]) == from {
        var r := FirstOccurrencesFrom(s, from);
        assert r == [s[from]] + rest;
        forall i, j | 0 <= i < j < |r|
          ensures IndexOf(s, r[i]) < IndexOf(s, r[j])
        {
          assert r[j] == rest[j - 1];
          assert from + 1 <= IndexOf(s, rest[j - 1]);
          if i > 0 {
            assert r[i] == rest[i - 1];
            assert IndexOf(s, rest[i - 1]) < IndexOf(s, rest[j - 1]);
          }
        }
      }
    }
  }

  /** Dedup lists its values in the order of their first occurrence. */
  lemma DedupOrder<T>(s: seq<T>)
    ensures forall i, j :: 0 <= i < j < |Dedup(s)| ==> IndexOf(s, Dedup(s)[i]) < IndexOf(s, Dedup(s)[j])
  {
    FirstOccurrencesFromOrdered(s, 0);
  }

  /** Dedup keeps first occurrences in order. */
  lemma DedupIsSubsequence<T>(s: seq<T>)
    ensures IsSubsequence(Dedup(s), s)
  {
    FirstOccurrencesSubsequence(s, 0);
  }

  lemma {:induction false} FirstOccurrencesSubsequence<T>(s: seq<T>, from: nat)
    requires from <= |s|
    ensures IsSubsequence(FirstOccurrencesFrom(s, from), s[from..])
    decreases |s| - from
  {
    if from < |s| {
      FirstOccurrencesSubsequence(s, from + 1);
      assert s[from..][1..] == s[from + 1..];
      var rest := FirstOccurrencesFrom(s, from + 1);
      if IndexOf(s, s[from]) == from {
        assert FirstOccurrencesFrom(s, from) == [s[from]] + rest;
        assert FirstOccurrencesFrom(s, from)[1..] == rest;
      } else {
        assert FirstOccurrencesFrom(s, from) == rest;
        if |rest| > 0 {
          FirstOccurrencesFromAreFirst(s, from + 1);
          // rest[0] has its first index after `from`, so it differs from s[from]
          assert rest[0] != s[from];
        }
      }
    }
  }

  /** Appending one value: the dedup grows by that value exactly when it is new. */
  lemma DedupSnoc<T>(s: seq<T>, x: T)
    ensures Dedup(s + [x]) == if x in s then Dedup(s) else Dedup(s) + [x]
  {
    FirstOccurrencesSnoc(s, x, 0);
    if x !in s {
      assert IndexOf(s + [x], x) == |s| by {
        assert (s + [x])[|s|] == x;
        forall k | 0 <= k < |s| ensures (s + [x])[k] != x {
          assert (s + [x])[k] == s[k];
        }
      }
    } else {
      IndexOfSnoc(s, x, x);
    }
  }

  lemma IndexOfSnoc<T>(s: seq<T>, x: T, y: T)
    requires y in s
    ensures IndexOf(s + [x], y) == IndexOf(s, y)
  {
    var i := IndexOf(s, y);
    var j := IndexOf(s + [x], y);
    assert (s + [x])[i] == y;
    assert forall k :: 0 <= k < |s| ==> (s + [x])[k] == s[k];
  }

  lemma {:induction false} FirstOccurrencesSnoc<T>(s: seq<T>, x: T, from: nat)
    requires from <= |s|
    ensures FirstOccurrencesFrom(s + [x], from) ==
      FirstOccurrencesFrom(s, from) + (if IndexOf(s + [x], x) == |s| then [x] else [])
    decreases |s| - from
  {
    var t := s + [x];
    if from == |s| {
      assert FirstOccurrencesFrom(t, from + 1) == [];
    } else {
      FirstOccurrencesSnoc(s, x, from + 1);
      assert t[from] == s[from];
      IndexOfSnoc(s, x, s[from]);
    }
  }
}
