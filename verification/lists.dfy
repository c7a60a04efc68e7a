/** Sequence operations standing for the `List<T>` calls the battle code makes. */
module Lists {

  /** No element occurs twice. */
  predicate NoDup<T(==)>(s: seq<T>) {
    forall i, j :: 0 <= i < j < |s| ==> s[i] != s[j]
  }

  /** `List<T>.Remove`: drops the first occurrence of `x`, if there is one. */
  function RemoveFirst<T(==)>(s: seq<T>, x: T): (r: seq<T>)
    ensures forall y :: y in r ==> y in s
    ensures x in s ==> |r| == |s| - 1
    ensures x !in s ==> r == s
  {
    if |s| == 0 then []
    else if s[0] == x then assert s == [s[0]] + s[1..]; s[1..]
    else assert s == [s[0]] + s[1..]; [s[0]] + RemoveFirst(s[1..], x)
  }

  /** The elements of `s` that are outside `k`, in their original order. */
  function Without<T(==,!new)>(s: seq<T>, k: set<T>): (r: seq<T>)
    ensures forall x :: x in r <==> x in s && x !in k
    ensures |r| <= |s|
  {
    if |s| == 0 then []
    else (if s[0] in k then [] else [s[0]]) + Without(s[1..], k)
  }

  lemma NoDupTail<T>(s: seq<T>)
    requires NoDup(s)
    requires |s| > 0
    ensures NoDup(s[1..])
    ensures s[0] !in s[1..]
  {
    forall a, b | 0 <= a < b < |s[1..]| ensures s[1..][a] != s[1..][b] {
      assert s[1..][a] == s[a + 1] && s[1..][b] == s[b + 1];
    }
  }

  lemma NoDupCons<T>(h: T, t: seq<T>)
    requires NoDup(t)
    requires h !in t
    ensures NoDup([h] + t)
  {
    var r := [h] + t;
    forall a, b | 0 <= a < b < |r| ensures r[a] != r[b] {
      assert r[b] == t[b - 1];
      if a > 0 {
        assert r[a] == t[a - 1];
      }
    }
  }

  lemma {:induction false} RemoveFirstNoDup<T(!new)>(s: seq<T>, x: T)
    requires NoDup(s)
    ensures NoDup(RemoveFirst(s, x))
    ensures x !in RemoveFirst(s, x)
  {
    if |s| > 0 {
      NoDupTail(s);
      if s[0] != x {
        RemoveFirstNoDup(s[1..], x);
        var t := RemoveFirst(s[1..], x);
        assert s[0] !in t;
        NoDupCons(s[0], t);
      }
    }
  }

  /** `Remove` takes out exactly one occurrence of `x` when there is one,
      and nothing else. */
  lemma {:induction false} RemoveFirstCount<T>(s: seq<T>, x: T)
    ensures multiset(RemoveFirst(s, x)) == multiset(s) - multiset{x}
  {
    if |s| > 0 {
      assert s == [s[0]] + s[1..];
      if s[0] != x {
        RemoveFirstCount(s[1..], x);
      }
    }
  }

  /** `Remove` takes out the first occurrence, wherever the list continues. */
  lemma {:induction false} RemoveFirstSplit<T(!new)>(a: seq<T>, x: T, b: seq<T>)
    requires x !in a
    ensures RemoveFirst(a + [x] + b, x) == a + b
  {
    if |a| > 0 {
      assert (a + [x] + b)[1..] == a[1..] + [x] + b;
      RemoveFirstSplit(a[1..], x, b);
      assert [a[0]] + (a[1..] + b) == a + b;
    } else {
      assert a + [x] + b == [x] + b;
    }
  }

  /** The element at `k` of a list without repeats does not occur after
      it. */
  lemma NoDupSuffix<T>(s: seq<T>, k: nat)
    requires NoDup(s)
    requires k < |s|
    ensures s[k..] == [s[k]] + s[k + 1..]
    ensures s[k] !in s[k + 1..]
  {
    assert s[k..] == [s[k]] + s[k + 1..];
    forall j | k + 1 <= j < |s| ensures s[j] != s[k] {
    }
  }

  /** Splitting off the last element of a list without repeats. */
  lemma NoDupSnoc<T>(a: seq<T>, x: T)
    requires NoDup(a + [x])
    ensures NoDup(a)
    ensures x !in a
  {
    var s := a + [x];
    forall i, j | 0 <= i < j < |a| ensures a[i] != a[j] {
      assert a[i] == s[i] && a[j] == s[j];
    }
    forall i | 0 <= i < |a| ensures a[i] != x {
      assert a[i] == s[i] && x == s[|a|];
    }
  }

  /** With no repeats, `Remove` is the filter that drops one value. */
  lemma {:induction false} RemoveFirstIsWithout<T(!new)>(s: seq<T>, x: T)
    requires NoDup(s)
    ensures RemoveFirst(s, x) == Without(s, {x})
  {
    if |s| > 0 {
      NoDupTail(s);
      RemoveFirstIsWithout(s[1..], x);
      if s[0] == x {
        WithoutDisjoint(s[1..], {x});
      }
    }
  }

  /** With no repeats, dropping the value at position `i` leaves the
      elements before it followed by the elements after it. */
  lemma WithoutAt<T(!new)>(s: seq<T>, i: nat)
    requires NoDup(s) && i < |s|
    ensures Without(s, {s[i]}) == s[..i] + s[i + 1..]
  {
    var front, back := s[..i], s[i + 1..];
    assert s == front + [s[i]] + back;
    assert s[i] !in front by {
      forall j | 0 <= j < i ensures front[j] != s[i] {
        assert s[j] == front[j];
      }
    }
    RemoveFirstIsWithout(s, s[i]);
    RemoveFirstSplit(front, s[i], back);
  }

  /** Filtering by a set no element belongs to changes nothing. */
  lemma {:induction false} WithoutDisjoint<T(!new)>(s: seq<T>, k: set<T>)
    requires forall x :: x in s ==> x !in k
    ensures Without(s, k) == s
  {
    if |s| > 0 {
      assert s[0] in s;
      assert forall x :: x in s[1..] ==> x in s;
      WithoutDisjoint(s[1..], k);
      assert [s[0]] + s[1..] == s;
    }
  }

  /** Only the members of the set that occur in the list matter. */
  lemma {:induction false} WithoutIgnores<T(!new)>(s: seq<T>, k: set<T>, extra: set<T>)
    requires forall x :: x in s ==> x !in extra
    ensures Without(s, k + extra) == Without(s, k)
  {
    if |s| > 0 {
      assert s[0] in s;
      assert forall x :: x in s[1..] ==> x in s;
      WithoutIgnores(s[1..], k, extra);
    }
  }

  lemma {:induction false} WithoutConcat<T(!new)>(a: seq<T>, b: seq<T>, k: set<T>)
    ensures Without(a + b, k) == Without(a, k) + Without(b, k)
  {
    if |a| > 0 {
      assert (a + b)[1..] == a[1..] + b;
      WithoutConcat(a[1..], b, k);
    } else {
      assert a + b == b;
    }
  }

  /** Filtering twice is filtering once by the union. */
  lemma {:induction false} WithoutWithout<T(!new)>(s: seq<T>, k1: set<T>, k2: set<T>)
    ensures Without(Without(s, k1), k2) == Without(s, k1 + k2)
  {
    if |s| > 0 {
      var head := if s[0] in k1 then [] else [s[0]];
      WithoutConcat(head, Without(s[1..], k1), k2);
      WithoutWithout(s[1..], k1, k2);
      if s[0] !in k1 {
        assert head[1..] == [];
      }
    }
  }

  lemma {:induction false} WithoutNoDup<T(!new)>(s: seq<T>, k: set<T>)
    requires NoDup(s)
    ensures NoDup(Without(s, k))
  {
    if |s| > 0 {
      NoDupTail(s);
      WithoutNoDup(s[1..], k);
      if s[0] !in k {
        NoDupCons(s[0], Without(s[1..], k));
      }
    }
  }
}
