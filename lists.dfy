/**
 * The `java.util.List` operations the core relies on, over sequences: `remove(Object)`,
 * `indexOf` and the absence of duplicates that several lists keep.
 */
module Lists {
  /** No element occurs twice. */
  predicate Distinct<T(==)>(s: seq<T>)
  {
    forall k, l :: 0 <= k < l < |s| ==> s[k] != s[l]
  }

  /** `List.remove(Object)`: the first occurrence of `x` taken out, if there is one. */
  function RemoveFirst<T(==)>(s: seq<T>, x: T): (r: seq<T>)
    ensures x !in s ==> r == s
    ensures x in s ==> |r| == |s| - 1
  {
    if |s| == 0 then []
    else if s[0] == x then s[1..]
    else [s[0]] + RemoveFirst(s[1..], x)
  }

  /** Removing the first occurrence takes exactly one `x` out of the multiset, or nothing. */
  lemma {:induction false} RemoveFirstCount<T>(s: seq<T>, x: T)
    ensures multiset(RemoveFirst(s, x)) == multiset(s) - multiset{x}
  {
    if |s| > 0 {
      RemoveFirstCount(s[1..], x);
      assert s == [s[0]] + s[1..];
    }
  }

  /** Removing never adds an element. */
  lemma {:induction false} RemoveFirstSubset<T>(s: seq<T>, x: T)
    ensures forall y :: y in RemoveFirst(s, x) ==> y in s
  {
    if |s| > 0 {
      RemoveFirstSubset(s[1..], x);
      assert s == [s[0]] + s[1..];
    }
  }

  /** In a list without duplicates, removing `x` removes it completely and keeps every other element. */
  lemma {:induction false} RemoveFirstDistinct<T>(s: seq<T>, x: T)
    requires Distinct(s)
    ensures Distinct(RemoveFirst(s, x))
    ensures forall y :: y in RemoveFirst(s, x) <==> y in s && y != x
  {
    if |s| > 0 {
      var t := s[1..];
      assert Distinct(t) by {
        forall k, l | 0 <= k < l < |t|
          ensures t[k] != t[l]
        {
          assert t[k] == s[k + 1] && t[l] == s[l + 1];
        }
      }
      assert s[0] !in t by {
        forall k | 0 <= k < |t|
          ensures t[k] != s[0]
        {
          assert t[k] == s[k + 1];
        }
      }
      assert forall y :: y in s <==> y == s[0] || y in t by {
        assert s == [s[0]] + t;
      }
      if s[0] != x {
        RemoveFirstDistinct(t, x);
        var r := RemoveFirst(t, x);
        assert RemoveFirst(s, x) == [s[0]] + r;
        forall k, l | 0 <= k < l < |[s[0]] + r|
          ensures ([s[0]] + r)[k] != ([s[0]] + r)[l]
        {
          if k > 0 {
            assert ([s[0]] + r)[k] == r[k - 1];
          }
          assert ([s[0]] + r)[l] == r[l - 1];
        }
      }
    }
  }

  /** `List.indexOf`: the first position of `x`, or -1. */
  function IndexOf<T(==)>(s: seq<T>, x: T): (r: int)
    ensures -1 <= r < |s|
    ensures r >= 0 ==> s[r] == x && forall k :: 0 <= k < r ==> s[k] != x
    ensures r == -1 <==> x !in s
  {
    if |s| == 0 then -1
    else if s[0] == x then 0
    else
      var i := IndexOf(s[1..], x);
      if i < 0 then -1 else i + 1
  }
}
