/** The Python `list` operations the source relies on. */
module Lists {
  /** No element occurs twice. */
  predicate NoDup<T(==)>(s: seq<T>) {
    forall i, j :: 0 <= i < j < |s| ==> s[i] != s[j]
  }

  /** Python's `s.remove(x)`: drops the first element equal to `x` (it raises when there is none). */
  function RemoveFirst<T(==)>(s: seq<T>, x: T): (r: seq<T>)
    requires x in s
    ensures |r| == |s| - 1
  {
    if s[0] == x then s[1..] else [s[0]] + RemoveFirst(s[1..], x)
  }

  /** `remove` takes one copy of `x` out of the list's multiset. */
  lemma {:induction false} RemoveFirstMultiset<T>(s: seq<T>, x: T)
    requires x in s
    ensures multiset(RemoveFirst(s, x)) == multiset(s) - multiset{x}
  {
    assert s == [s[0]] + s[1..];
    if s[0] != x {
      RemoveFirstMultiset(s[1..], x);
    }
  }

  /** Removing what was just appended restores the list. */
  lemma {:induction false} RemoveFirstAppended<T>(s: seq<T>, x: T)
    requires x !in s
    ensures RemoveFirst(s + [x], x) == s
  {
    if |s| > 0 {
      assert (s + [x])[1..] == s[1..] + [x];
      RemoveFirstAppended(s[1..], x);
      assert s == [s[0]] + s[1..];
    }
  }

  /** On a list without duplicates, `remove` takes the element out entirely and keeps the rest distinct. */
  lemma NoDupRemoveFirst<T>(s: seq<T>, x: T)
    requires x in s && NoDup(s)
    ensures NoDup(RemoveFirst(s, x)) && x !in RemoveFirst(s, x)
  {
    var r := RemoveFirst(s, x);
    RemoveFirstMultiset(s, x);
    assert multiset(s)[x] == 1 by { NoDupCountsOnce(s, x); }
    assert x !in multiset(r);
    assert forall y :: multiset(r)[y] <= 1 by {
      forall y ensures multiset(r)[y] <= 1 {
        if y in s { NoDupCountsOnce(s, y); }
      }
    }
    CountsOnceNoDup(r);
  }

  lemma {:induction false} NoDupCountsOnce<T>(s: seq<T>, x: T)
    requires NoDup(s) && x in s
    ensures multiset(s)[x] == 1
  {
    if s[0] == x {
      assert x !in s[1..];
      assert s == [x] + s[1..];
    } else {
      NoDupCountsOnce(s[1..], x);
      assert s == [s[0]] + s[1..];
    }
  }

  lemma {:induction false} CountsOnceNoDup<T>(s: seq<T>)
    requires forall y :: multiset(s)[y] <= 1
    ensures NoDup(s)
  {
    if |s| > 0 {
      var t := s[1..];
      assert s == [s[0]] + t;
      assert multiset(s) == multiset{s[0]} + multiset(t);
      assert multiset(s)[s[0]] == 1 + multiset(t)[s[0]];
      assert s[0] !in t;
      forall y ensures multiset(t)[y] <= 1 {
        assert multiset(t)[y] <= multiset(s)[y];
      }
      CountsOnceNoDup(t);
      forall i, j | 0 <= i < j < |s| ensures s[i] != s[j] {
        if i == 0 { assert s[j] == t[j - 1]; } else { assert s[i] == t[i - 1] && s[j] == t[j - 1]; }
      }
    }
  }

  /** Two duplicate-free lists with no common element concatenate to a duplicate-free list. */
  lemma NoDupConcat<T>(a: seq<T>, b: seq<T>)
    requires NoDup(a) && NoDup(b)
    requires forall x :: x in a ==> x !in b
    ensures NoDup(a + b)
  {
    var s := a + b;
    forall i, j | 0 <= i < j < |s| ensures s[i] != s[j] {
      if i < |a| && j >= |a| {
        assert s[i] == a[i] && s[j] == b[j - |a|];
        assert a[i] in a;
      } else if j < |a| {
        assert s[i] == a[i] && s[j] == a[j];
      } else {
        assert s[i] == b[i - |a|] && s[j] == b[j - |a|];
      }
    }
  }

  /** A rearrangement of a duplicate-free list is duplicate-free and has the same elements. */
  lemma PermutationNoDup<T>(a: seq<T>, b: seq<T>)
    requires multiset(a) == multiset(b) && NoDup(a)
    ensures NoDup(b) && forall x :: x in b <==> x in a
  {
    forall y ensures multiset(b)[y] <= 1 {
      if y in a { NoDupCountsOnce(a, y); }
    }
    CountsOnceNoDup(b);
    forall x ensures x in b <==> x in a {
      assert x in b <==> x in multiset(b);
      assert x in a <==> x in multiset(a);
    }
  }

  /** `remove` takes out the first occurrence and nothing else. */
  lemma {:induction false} RemoveFirstSplit<T>(p: seq<T>, x: T, q: seq<T>)
    requires x !in p
    ensures RemoveFirst(p + [x] + q, x) == p + q
  {
    var s := p + [x] + q;
    if |p| == 0 {
      assert s == [x] + q && s[1..] == q;
    } else {
      assert s[0] == p[0] && s[1..] == p[1..] + [x] + q;
      RemoveFirstSplit(p[1..], x, q);
      assert p == [p[0]] + p[1..];
      ConcatAssociative([p[0]], p[1..], q);
    }
  }

  /** When the element at `i` occurs nowhere before it, `remove` takes out exactly position `i`. */
  lemma RemoveFirstAt<T>(s: seq<T>, i: nat)
    requires i < |s| && s[i] !in s[..i]
    ensures RemoveFirst(s, s[i]) == s[..i] + s[i + 1..]
  {
    assert s == s[..i] + [s[i]] + s[i + 1..];
    RemoveFirstSplit(s[..i], s[i], s[i + 1..]);
  }

  lemma ConcatAssociative<T>(a: seq<T>, b: seq<T>, c: seq<T>)
    ensures a + (b + c) == (a + b) + c
  {
  }

  lemma NoDupNotBefore<T>(s: seq<T>, i: nat)
    requires i < |s| && NoDup(s)
    ensures s[i] !in s[..i]
  {
    forall k | 0 <= k < i ensures s[..i][k] != s[i] {
      assert s[..i][k] == s[k];
    }
  }

  lemma NoDupTail<T>(s: seq<T>)
    requires |s| > 0 && NoDup(s)
    ensures NoDup(s[1..])
  {
    forall a, b | 0 <= a < b < |s| - 1 ensures s[1..][a] != s[1..][b] {
      assert s[1..][a] == s[a + 1] && s[1..][b] == s[b + 1];
    }
  }

  /** Taking out one position keeps a list duplicate-free. */
  lemma NoDupDelete<T>(s: seq<T>, i: nat)
    requires i < |s| && NoDup(s)
    ensures NoDup(s[..i] + s[i + 1..])
  {
    var r := s[..i] + s[i + 1..];
    forall a, b | 0 <= a < b < |r| ensures r[a] != r[b] {
      var a', b' := if a < i then a else a + 1, if b < i then b else b + 1;
      assert r[a] == s[a'] && r[b] == s[b'];
    }
  }
}
