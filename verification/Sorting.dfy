/** The sorted sequence of a finite set under a strict total order: it exists and it is unique. */
module Sorting {

  ghost predicate StrictTotal<T(!new)>(lt: (T, T) -> bool) {
    && (forall a :: !lt(a, a))
    && (forall a, b :: a == b || lt(a, b) || lt(b, a))
    && (forall a, b, c :: lt(a, b) && lt(b, c) ==> lt(a, c))
  }

  ghost predicate Sorted<T>(lt: (T, T) -> bool, s: seq<T>) {
    forall i, j :: 0 <= i < j < |s| ==> lt(s[i], s[j])
  }

  ghost function Elements<T>(s: seq<T>): set<T> {
    set x | x in s
  }

  lemma NoElements<T>(s: seq<T>)
    ensures Elements(s) == {} <==> s == []
  {
    if s != [] {
      assert s[0] in Elements(s);
    }
  }

  ghost predicate IsSortOf<T>(lt: (T, T) -> bool, xs: set<T>, s: seq<T>) {
    Sorted(lt, s) && Elements(s) == xs
  }

  lemma Least<T(!new)>(lt: (T, T) -> bool, xs: set<T>) returns (m: T)
    requires StrictTotal(lt) && xs != {}
    ensures m in xs && forall x :: x in xs && x != m ==> lt(m, x)
  {
    m :| m in xs;
    var rest := xs - {m};
    if rest != {} {
      var m' := Least(lt, rest);
      if lt(m', m) {
        m := m';
      }
    }
  }

  lemma SortExists<T(!new)>(lt: (T, T) -> bool, xs: set<T>)
    requires StrictTotal(lt)
    ensures exists s :: IsSortOf(lt, xs, s)
  {
    if xs == {} {
      assert IsSortOf(lt, xs, []);
    } else {
      var m := Least(lt, xs);
      SortExists(lt, xs - {m});
      var rest :| IsSortOf(lt, xs - {m}, rest);
      var s := [m] + rest;
      forall x ensures x in s <==> x in xs {
        assert x in rest <==> x in Elements(rest);
      }
      forall i, j | 0 <= i < j < |s| ensures lt(s[i], s[j]) {
        assert s[j] in Elements(rest);
        assert i > 0 ==> lt(rest[i - 1], rest[j - 1]);
      }
      assert IsSortOf(lt, xs, s);
    }
  }

  /** The one sorted sequence holding exactly the elements of xs. */
  ghost function SortSet<T(!new)>(lt: (T, T) -> bool, xs: set<T>): (s: seq<T>)
    requires StrictTotal(lt)
    ensures IsSortOf(lt, xs, s)
  {
    SortExists(lt, xs);
    var s :| IsSortOf(lt, xs, s); s
  }

  /** Whatever order a map is iterated in, sorting its keys gives the same sequence. */
  lemma {:induction false} SortUnique<T(!new)>(lt: (T, T) -> bool, s: seq<T>, t: seq<T>)
    requires StrictTotal(lt) && Sorted(lt, s) && Sorted(lt, t) && Elements(s) == Elements(t)
    ensures s == t
  {
    if s == [] || t == [] {
      NoElements(s);
      NoElements(t);
    } else {
      assert s[0] in Elements(t) && t[0] in Elements(s);
      var j :| 0 <= j < |t| && t[j] == s[0];
      var i :| 0 <= i < |s| && s[i] == t[0];
      assert s[0] == t[0];
      forall x ensures x in s[1..] <==> x in t[1..] {
        assert x in s <==> x in Elements(s);
        assert x in t <==> x in Elements(t);
        assert x in s[1..] ==> lt(s[0], x);
        assert x in t[1..] ==> lt(t[0], x);
      }
      assert Elements(s[1..]) == Elements(t[1..]);
      SortUnique(lt, s[1..], t[1..]);
      assert s == [s[0]] + s[1..] && t == [t[0]] + t[1..];
    }
  }

  lemma SortedDistinct<T(!new)>(lt: (T, T) -> bool, s: seq<T>, i: nat, j: nat)
    requires StrictTotal(lt) && Sorted(lt, s) && i < |s| && j < |s| && s[i] == s[j]
    ensures i == j
  {
  }

  /** The size of a set is the length of its sorted sequence. */
  lemma {:induction false} SortedCard<T(!new)>(lt: (T, T) -> bool, s: seq<T>)
    requires StrictTotal(lt) && Sorted(lt, s)
    ensures |Elements(s)| == |s|
  {
    if s != [] {
      var init := s[..|s| - 1];
      SortedCard(lt, init);
      var last := s[|s| - 1];
      assert last !in Elements(init);
      assert Elements(s) == Elements(init) + {last};
    }
  }

  /** Put x behind the elements in front that go before it. */
  method InsertAt<T>(before: (T, T) -> bool, s: seq<T>, x: T) returns (r: seq<T>, ghost i: nat)
    ensures i <= |s| && r == s[..i] + [x] + s[i..]
    ensures forall j :: 0 <= j < i ==> before(s[j], x)
    ensures i < |s| ==> !before(s[i], x)
  {
    var k := 0;
    while k < |s| && before(s[k], x)
      invariant 0 <= k <= |s|
      invariant forall j :: 0 <= j < k ==> before(s[j], x)
    {
      k := k + 1;
    }
    r, i := s[..k] + [x] + s[k..], k;
  }

  lemma AllBehind<T(!new)>(lt: (T, T) -> bool, s: seq<T>, x: T, i: nat)
    requires StrictTotal(lt) && Sorted(lt, s) && x !in s && i < |s| && !lt(s[i], x)
    ensures forall j :: i <= j < |s| ==> lt(x, s[j])
  {
    forall j | i <= j < |s| ensures lt(x, s[j]) {
      assert s[i] != x && lt(x, s[i]);
      assert j > i ==> lt(s[i], s[j]);
    }
  }

  /** Put x into a sorted sequence. */
  method Insert<T(==,!new)>(lt: (T, T) -> bool, s: seq<T>, x: T) returns (r: seq<T>)
    requires StrictTotal(lt) && Sorted(lt, s) && x !in s
    ensures IsSortOf(lt, Elements(s) + {x}, r)
  {
    ghost var i;
    r, i := InsertAt(lt, s, x);
    if i < |s| {
      AllBehind(lt, s, x, i);
    }
    assert s == s[..i] + s[i..];
    forall y ensures y in r <==> y in Elements(s) + {x} {
      assert y in s <==> y in s[..i] || y in s[i..];
    }
  }

  /** Sort the keys of a map, whatever order they are met in. */
  method SortKeys<T(==,!new)>(lt: (T, T) -> bool, keys: set<T>) returns (s: seq<T>)
    requires StrictTotal(lt)
    ensures IsSortOf(lt, keys, s)
  {
    s := [];
    var rest := keys;
    while rest != {}
      invariant rest <= keys && IsSortOf(lt, keys - rest, s)
      decreases |rest|
    {
      var x :| x in rest;
      assert x in s ==> x in Elements(s);
      s := Insert(lt, s, x);
      rest := rest - {x};
      assert Elements(s) == keys - rest;
    }
  }
}
