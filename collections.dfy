/** Sequence searches used by the resolvers: the behaviour of JavaScript's
    Array.prototype.find and Array.prototype.filter over a plain array,
    stated as functions over sequences. */
module Collections {

  /** A value or nothing: JavaScript's `undefined` result of a failed search. */
  datatype Option<+T> = None | Some(value: T)

  /** True when `i` is the index of the first element of `s` that satisfies `p`. */
  ghost predicate IsFirstMatch<T>(s: seq<T>, p: T -> bool, i: int)
  {
    0 <= i < |s| && p(s[i]) && forall j :: 0 <= j < i ==> !p(s[j])
  }

  /** The first element of `s`, in index order, that satisfies `p`, or None
      when no element does. */
  function Find<T>(s: seq<T>, p: T -> bool): (r: Option<T>)
    ensures r.None? <==> forall i :: 0 <= i < |s| ==> !p(s[i])
    ensures r.Some? ==> exists i :: IsFirstMatch(s, p, i) && s[i] == r.value
    decreases |s|
  {
    if |s| == 0 then None
    else if p(s[0]) then
      assert IsFirstMatch(s, p, 0);
      Some(s[0])
    else
      var r := Find(s[1..], p);
      assert r.Some? ==> exists i :: IsFirstMatch(s, p, i) && s[i] == r.value by {
        if r.Some? {
          var k :| IsFirstMatch(s[1..], p, k) && s[1..][k] == r.value;
          assert IsFirstMatch(s, p, k + 1);
        }
      }
      r
  }

  /** The elements of `s` that satisfy `p`, in their original order: each
      kept element occurs as often as in `s`, every other one not at all. */
  function Filter<T(!new)>(s: seq<T>, p: T -> bool): (r: seq<T>)
    ensures |r| <= |s|
    ensures forall x :: x in r <==> x in s && p(x)
    ensures forall x :: multiset(r)[x] == if p(x) then multiset(s)[x] else 0
    decreases |s|
  {
    if |s| == 0 then []
    else
      var rest := Filter(s[1..], p);
      assert s == [s[0]] + s[1..];
      if p(s[0]) then [s[0]] + rest else rest
  }

  /** Filtering distributes over concatenation, so the kept elements keep the
      order they had in the input. */
  lemma {:induction false} FilterAppend<T(!new)>(a: seq<T>, b: seq<T>, p: T -> bool)
    ensures Filter(a + b, p) == Filter(a, p) + Filter(b, p)
    decreases |a|
  {
    if |a| == 0 {
      assert a + b == b;
    } else {
      assert (a + b)[1..] == a[1..] + b;
      FilterAppend(a[1..], b, p);
    }
  }

  /** Nothing is kept from a sequence none of whose elements satisfies `p`. */
  lemma FilterNone<T(!new)>(s: seq<T>, p: T -> bool)
    requires forall i :: 0 <= i < |s| ==> !p(s[i])
    ensures Filter(s, p) == []
  {
  }

  /** Everything is kept from a sequence all of whose elements satisfy `p`. */
  lemma {:induction false} FilterAll<T(!new)>(s: seq<T>, p: T -> bool)
    requires forall i :: 0 <= i < |s| ==> p(s[i])
    ensures Filter(s, p) == s
    decreases |s|
  {
    if |s| != 0 {
      FilterAll(s[1..], p);
    }
  }

  /** When at most one index of `s` satisfies `p`, at most one element is kept. */
  lemma {:induction false} FilterAtMostOne<T(!new)>(s: seq<T>, p: T -> bool)
    requires forall i, j :: 0 <= i < j < |s| && p(s[i]) ==> !p(s[j])
    ensures |Filter(s, p)| <= 1
    decreases |s|
  {
    if |s| != 0 {
      if p(s[0]) {
        FilterNone(s[1..], p);
      } else {
        FilterAtMostOne(s[1..], p);
      }
    }
  }

  /** Find is the head of Filter: the first match is the first element kept. */
  lemma {:induction false} FindIsHeadOfFilter<T(!new)>(s: seq<T>, p: T -> bool)
    ensures Find(s, p) == if Filter(s, p) == [] then None else Some(Filter(s, p)[0])
    decreases |s|
  {
    if |s| != 0 && !p(s[0]) {
      FindIsHeadOfFilter(s[1..], p);
    }
  }

  /** Searching a concatenation looks in the second part only when the first
      part has no match. */
  lemma {:induction false} FindAppend<T>(a: seq<T>, b: seq<T>, p: T -> bool)
    ensures Find(a + b, p) == if Find(a, p).Some? then Find(a, p) else Find(b, p)
    decreases |a|
  {
    if |a| == 0 {
      assert a + b == b;
    } else {
      assert (a + b)[1..] == a[1..] + b;
      FindAppend(a[1..], b, p);
    }
  }
}
