/** The two ways the engine takes an element out of a std::vector: the
    erase-remove idiom, which drops every occurrence, and std::find followed by
    erase, which drops only the first. */
module SeqUtils {

  /** `s` without any occurrence of `x`, the others in their order
      (v.erase(std::remove(v.begin(), v.end(), x), v.end())). */
  function RemoveAll<T(==)>(s: seq<T>, x: T): (r: seq<T>)
    ensures x !in r
    ensures |r| <= |s|
  {
    if s == [] then [] else (if s[0] == x then [] else [s[0]]) + RemoveAll(s[1..], x)
  }

  /** The erase-remove idiom works piecewise: what is kept of `a + b` is what is
      kept of `a` followed by what is kept of `b`, so the survivors keep their order. */
  lemma {:induction false} RemoveAllConcat<T>(a: seq<T>, b: seq<T>, x: T)
    ensures RemoveAll(a + b, x) == RemoveAll(a, x) + RemoveAll(b, x)
    decreases |a|
  {
    if a != [] {
      assert (a + b)[1..] == a[1..] + b;
      RemoveAllConcat(a[1..], b, x);
    } else {
      assert a + b == b;
    }
  }

  /** Every other element keeps its number of occurrences. */
  lemma {:induction false} RemoveAllCounts<T>(s: seq<T>, x: T)
    ensures multiset(RemoveAll(s, x)) == multiset(s)[x := 0]
  {
    if s != [] {
      RemoveAllCounts(s[1..], x);
      assert s == [s[0]] + s[1..];
    }
  }

  /** Removing an absent element changes nothing. */
  lemma {:induction false} RemoveAllAbsent<T>(s: seq<T>, x: T)
    requires x !in s
    ensures RemoveAll(s, x) == s
  {
    if s != [] {
      RemoveAllAbsent(s[1..], x);
      assert s == [s[0]] + s[1..];
    }
  }

  /** `s` without its first occurrence of `x`, unchanged when there is none
      (auto it = std::find(v.begin(), v.end(), x); if (it != v.end()) v.erase(it)). */
  function RemoveFirst<T(==)>(s: seq<T>, x: T): seq<T>
  {
    if s == [] then []
    else if s[0] == x then s[1..]
    else [s[0]] + RemoveFirst(s[1..], x)
  }

  /** One occurrence of `x` goes, when there is one; every other count stays. */
  lemma {:induction false} RemoveFirstCounts<T>(s: seq<T>, x: T)
    ensures multiset(RemoveFirst(s, x)) == multiset(s) - multiset{x}
  {
    if s != [] {
      var t := s[1..];
      assert s == [s[0]] + t;
      if s[0] == x {
        assert multiset(s) == multiset(t) + multiset{x};
      } else {
        RemoveFirstCounts(t, x);
        assert RemoveFirst(s, x) == [s[0]] + RemoveFirst(t, x);
        forall y ensures multiset(RemoveFirst(s, x))[y] == (multiset(s) - multiset{x})[y] {}
      }
    }
  }

  /** RemoveFirst erases exactly the first position holding `x`, keeping the rest
      in order. */
  lemma {:induction false} RemoveFirstAt<T>(s: seq<T>, x: T, i: nat)
    requires i < |s| && s[i] == x && x !in s[..i]
    ensures RemoveFirst(s, x) == s[..i] + s[i + 1..]
  {
    if i > 0 {
      var t := s[1..];
      assert s[0] in s[..i];
      assert t[..i - 1] == s[1..i];
      RemoveFirstAt(t, x, i - 1);
      assert [s[0]] + t[..i - 1] == s[..i];
      assert t[i..] == s[i + 1..];
    }
  }

  /** Without an occurrence of `x`, RemoveFirst changes nothing. */
  lemma {:induction false} RemoveFirstAbsent<T>(s: seq<T>, x: T)
    requires x !in s
    ensures RemoveFirst(s, x) == s
  {
    if s != [] {
      RemoveFirstAbsent(s[1..], x);
      assert s == [s[0]] + s[1..];
    }
  }
}
