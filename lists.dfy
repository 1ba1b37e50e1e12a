/** The operations of java.util.List that the builder uses on its user lists:
    `add` appends, `contains` is `in`, and `remove(Object)` drops the first
    occurrence. */
module Lists {

  /** List.remove(Object): removes the first element equal to `x`, if any. */
  function RemoveFirst<T(==)>(s: seq<T>, x: T): (r: seq<T>)
    ensures x !in s ==> r == s
    ensures |r| == if x in s then |s| - 1 else |s|
  {
    if |s| == 0 then s
    else
      assert s == [s[0]] + s[1..];
      if s[0] == x then s[1..] else [s[0]] + RemoveFirst(s[1..], x)
  }

  /** Exactly one occurrence of `x` goes, when there is one, and nothing else. */
  lemma {:induction false} RemoveFirstMultiset<T>(s: seq<T>, x: T)
    ensures multiset(RemoveFirst(s, x)) == multiset(s) - multiset{x}
  {
    if |s| > 0 {
      assert s == [s[0]] + s[1..];
      RemoveFirstMultiset(s[1..], x);
    }
  }

  /** The element removed is the first occurrence: everything before it and
      everything after it stays, in order. */
  lemma {:induction false} RemoveFirstIsFirstOccurrence<T>(s: seq<T>, x: T, i: nat)
    requires i < |s| && s[i] == x && x !in s[..i]
    ensures RemoveFirst(s, x) == s[..i] + s[i + 1..]
  {
    if i == 0 {
      assert s[..0] + s[1..] == s[1..];
    } else {
      var t := s[1..];
      assert s[..i] == [s[0]] + t[..i - 1];
      assert s[0] != x;
      assert x !in t[..i - 1];
      RemoveFirstIsFirstOccurrence(t, x, i - 1);
      assert t[i..] == s[i + 1..];
    }
  }

  /** Appending `x` and then removing it gives the list back when `x` was absent. */
  lemma {:induction false} RemoveFirstOfAppended<T>(s: seq<T>, x: T)
    requires x !in s
    ensures RemoveFirst(s + [x], x) == s
  {
    if |s| > 0 {
      assert (s + [x])[1..] == s[1..] + [x];
      RemoveFirstOfAppended(s[1..], x);
    }
  }
}
