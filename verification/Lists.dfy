/** Sequences without repetition: what the kernel's linked lists hold. */
module Lists {

  ghost predicate NoDup<T>(xs: seq<T>) {
    forall i, j :: 0 <= i < j < |xs| ==> xs[i] != xs[j]
  }

  /** rt_list_remove seen from the list: every occurrence of t goes. */
  function Without<T(==)>(xs: seq<T>, t: T): seq<T> {
    if xs == [] then []
    else if xs[0] == t then Without(xs[1..], t)
    else [xs[0]] + Without(xs[1..], t)
  }

  lemma {:induction false} WithoutMembers<T>(xs: seq<T>, t: T)
    ensures forall x :: x in Without(xs, t) <==> x in xs && x != t
    ensures t !in xs ==> Without(xs, t) == xs
    ensures |Without(xs, t)| <= |xs|
  {
    if xs != [] {
      WithoutMembers(xs[1..], t);
      assert xs == [xs[0]] + xs[1..];
    }
  }

  /** Where an element of the rest stood before the removal. */
  ghost function Origin<T>(xs: seq<T>, t: T, i: nat): (k: nat)
    requires i < |Without(xs, t)|
    ensures k < |xs| && xs[k] == Without(xs, t)[i] && i <= k
    decreases xs
  {
    if xs[0] == t then 1 + Origin(xs[1..], t, i)
    else if i == 0 then 0
    else 1 + Origin(xs[1..], t, i - 1)
  }

  lemma {:induction false} OriginMonotone<T>(xs: seq<T>, t: T, i: nat, j: nat)
    requires i < j < |Without(xs, t)|
    ensures Origin(xs, t, i) < Origin(xs, t, j)
    decreases xs
  {
    if xs[0] == t {
      OriginMonotone(xs[1..], t, i, j);
    } else if i > 0 {
      OriginMonotone(xs[1..], t, i - 1, j - 1);
    }
  }

  lemma WithoutNoDup<T>(xs: seq<T>, t: T)
    requires NoDup(xs)
    ensures NoDup(Without(xs, t))
  {
    var ys := Without(xs, t);
    forall i, j | 0 <= i < j < |ys|
      ensures ys[i] != ys[j]
    {
      OriginMonotone(xs, t, i, j);
    }
  }

  /** Removing the head of a list without repetition leaves its tail. */
  lemma WithoutHead<T>(xs: seq<T>)
    requires xs != [] && NoDup(xs)
    ensures Without(xs, xs[0]) == xs[1..]
  {
    WithoutMembers(xs[1..], xs[0]);
  }

  /** t inserted before position k. */
  function Inserted<T>(xs: seq<T>, k: nat, t: T): (ys: seq<T>)
    requires k <= |xs|
    ensures |ys| == |xs| + 1
  {
    xs[..k] + [t] + xs[k..]
  }

  lemma InsertedAt<T>(xs: seq<T>, k: nat, t: T, i: nat)
    requires k <= |xs| && i <= |xs|
    ensures Inserted(xs, k, t)[i] == if i < k then xs[i] else if i == k then t else xs[i - 1]
  {
  }

  lemma InsertedIs<T>(xs: seq<T>, k: nat, t: T)
    requires k <= |xs|
    ensures Inserted(xs, k, t) == xs[..k] + [t] + xs[k..]
    ensures k == |xs| ==> Inserted(xs, k, t) == xs + [t]
  {
  }

  lemma InsertedMembers<T>(xs: seq<T>, k: nat, t: T)
    requires k <= |xs|
    ensures forall x :: x in Inserted(xs, k, t) <==> x in xs || x == t
    ensures NoDup(xs) && t !in xs ==> NoDup(Inserted(xs, k, t))
  {
    assert xs == xs[..k] + xs[k..];
  }

  ghost function Elements<T>(xs: seq<T>): set<T> {
    set x <- xs
  }

  /** Without repetition, the length counts the members. */
  lemma {:induction false} Distinct<T>(xs: seq<T>)
    requires NoDup(xs)
    ensures |Elements(xs)| == |xs|
  {
    if xs != [] {
      Distinct(xs[1..]);
      assert Elements(xs) == {xs[0]} + Elements(xs[1..]);
    }
  }

  /** Removing one member shortens the list by one. */
  lemma {:induction false} WithoutCount<T>(xs: seq<T>, t: T)
    requires NoDup(xs)
    ensures forall x :: x in Without(xs, t) <==> x in xs && x != t
    ensures |Without(xs, t)| == |xs| - if t in xs then 1 else 0
  {
    WithoutMembers(xs, t);
    if xs != [] {
      if xs[0] == t {
        WithoutHead(xs);
      } else {
        WithoutCount(xs[1..], t);
        assert t in xs <==> t in xs[1..];
      }
    }
  }

  /** Taking out the element at n. */
  lemma DropAt<T>(xs: seq<T>, n: nat)
    requires NoDup(xs) && n < |xs|
    ensures NoDup(xs[..n] + xs[n + 1..])
    ensures forall x :: x in xs[..n] + xs[n + 1..] <==> x in xs && x != xs[n]
    ensures xs[n] !in xs[..n] && xs[n] !in xs[n + 1..]
  {
    var ys := xs[..n] + xs[n + 1..];
    forall x | x in xs && x != xs[n] ensures x in ys {
      var i :| 0 <= i < |xs| && xs[i] == x;
      assert x == ys[if i < n then i else i - 1];
    }
  }

  lemma NoDupParts<T>(a: seq<T>, b: seq<T>)
    requires NoDup(a + b)
    ensures NoDup(a) && NoDup(b) && forall x <- a :: x !in b
  {
    var c := a + b;
    forall i, j | 0 <= i < j < |a| ensures a[i] != a[j] {
      assert a[i] == c[i] && a[j] == c[j];
    }
    forall i, j | 0 <= i < j < |b| ensures b[i] != b[j] {
      assert b[i] == c[|a| + i] && b[j] == c[|a| + j];
    }
    forall i, j | 0 <= i < |a| && 0 <= j < |b| ensures a[i] != b[j] {
      assert a[i] == c[i] && b[j] == c[|a| + j];
    }
  }

  /** Removing the one occurrence of an element cuts it out. */
  lemma {:induction false} WithoutAt<T>(xs: seq<T>, i: nat)
    requires NoDup(xs) && i < |xs|
    ensures Without(xs, xs[i]) == xs[..i] + xs[i + 1..]
  {
    if i == 0 {
      WithoutHead(xs);
    } else {
      WithoutAt(xs[1..], i - 1);
      assert xs[1..][i - 1] == xs[i] && [xs[0]] + (xs[1..][..i - 1] + xs[1..][i..]) == xs[..i] + xs[i + 1..];
    }
  }

  lemma PushNoDup<T>(xs: seq<T>, n: T)
    requires NoDup(xs) && n !in xs
    ensures NoDup([n] + xs) && NoDup(xs + [n])
    ensures forall x :: x in [n] + xs <==> x == n || x in xs
    ensures forall x :: x in xs + [n] <==> x == n || x in xs
  {
  }

  lemma PopNoDup<T>(xs: seq<T>)
    requires NoDup(xs) && xs != []
    ensures NoDup(xs[1..]) && xs[0] in xs && xs[0] !in xs[1..]
    ensures forall x :: x in xs[1..] <==> x in xs && x != xs[0]
  {
    assert xs == [xs[0]] + xs[1..];
  }
}
