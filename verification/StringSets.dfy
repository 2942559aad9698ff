/** Comparing string lists up to order, the way sort-and-compare does it. */
module StringSets {
  import Sorting

  predicate Le(a: string, b: string) {
    a == [] || (b != [] && (a[0] < b[0] || (a[0] == b[0] && Le(a[1..], b[1..]))))
  }

  lemma {:induction false} LeTotal(a: string, b: string)
    ensures Le(a, b) || Le(b, a)
    ensures Le(a, b) && Le(b, a) ==> a == b
  {
    if a != [] && b != [] && a[0] == b[0] {
      LeTotal(a[1..], b[1..]);
      assert a == [a[0]] + a[1..] && b == [b[0]] + b[1..];
    }
  }

  lemma {:induction false} LeTrans(a: string, b: string, c: string)
    requires Le(a, b) && Le(b, c)
    ensures Le(a, c)
  {
    if a != [] && a[0] == b[0] && b[0] == c[0] {
      LeTrans(a[1..], b[1..], c[1..]);
    }
  }

  ghost predicate Sorted(s: seq<string>) {
    forall i, j :: 0 <= i < j < |s| ==> Le(s[i], s[j])
  }

  lemma FirstIsLeast(s: seq<string>, x: string)
    requires Sorted(s) && x in s
    ensures Le(s[0], x)
  {
    LeTotal(x, x);
  }

  lemma HeadTail(s: seq<string>)
    requires s != []
    ensures multiset(s[1..]) == multiset(s) - multiset{s[0]}
  {
    assert s == [s[0]] + s[1..];
  }

  lemma SameHead(s: seq<string>, t: seq<string>)
    requires Sorted(s) && Sorted(t) && multiset(s) == multiset(t) && s != []
    ensures t != [] && s[0] == t[0]
  {
    assert s[0] in multiset(t);
    assert t[0] in multiset(s);
    FirstIsLeast(s, t[0]);
    FirstIsLeast(t, s[0]);
    LeTotal(s[0], t[0]);
  }

  /** A sorted list is determined by what it holds and how often. */
  lemma {:induction false} SortedDetermined(s: seq<string>, t: seq<string>)
    requires Sorted(s) && Sorted(t) && multiset(s) == multiset(t)
    ensures s == t
    decreases s
  {
    if s == [] {
      assert |t| == |multiset(t)|;
    } else {
      SameHead(s, t);
      HeadTail(s);
      HeadTail(t);
      SortedDetermined(s[1..], t[1..]);
      assert s == [s[0]] + s[1..] && t == [t[0]] + t[1..];
    }
  }

  lemma Inserted(s: seq<string>, x: string, i: nat)
    requires Sorted(s) && i <= |s| && (forall k :: 0 <= k < i ==> Le(s[k], x)) && (i < |s| ==> Le(x, s[i]))
    ensures Sorted(s[..i] + [x] + s[i..])
  {
    forall k | i <= k < |s| ensures Le(x, s[k]) {
      if k > i {
        LeTrans(x, s[i], s[k]);
      }
    }
  }

  lemma InsertedHolds(s: seq<string>, x: string, i: nat)
    requires i <= |s|
    ensures multiset(s[..i] + [x] + s[i..]) == multiset(s) + multiset{x}
  {
    assert s == s[..i] + s[i..];
  }

  method InsertString(s: seq<string>, x: string) returns (r: seq<string>)
    requires Sorted(s)
    ensures Sorted(r) && multiset(r) == multiset(s) + multiset{x}
  {
    ghost var i;
    r, i := Sorting.InsertAt(Le, s, x);
    if i < |s| {
      LeTotal(s[i], x);
    }
    Inserted(s, x, i);
    InsertedHolds(s, x, i);
  }

  method SortStrings(a: seq<string>) returns (s: seq<string>)
    ensures Sorted(s) && multiset(s) == multiset(a)
  {
    s := [];
    for i := 0 to |a|
      invariant Sorted(s) && multiset(s) == multiset(a[..i])
    {
      s := InsertString(s, a[i]);
      assert a[..i + 1] == a[..i] + [a[i]];
    }
    assert a[..|a|] == a;
  }

  /** stringSetEqual: equal as multisets, despite its name. */
  method StringSetEqual(a: seq<string>, b: seq<string>) returns (eq: bool)
    ensures eq <==> multiset(a) == multiset(b)
  {
    if |a| != |b| {
      assert |multiset(a)| == |a| && |multiset(b)| == |b|;
      return false;
    }
    var s := SortStrings(a);
    var t := SortStrings(b);
    assert |s| == |multiset(s)| == |multiset(a)| && |t| == |multiset(t)| == |multiset(b)|;
    if multiset(a) == multiset(b) {
      SortedDetermined(s, t);
    }
    for i := 0 to |s|
      invariant s[..i] == t[..i]
    {
      if s[i] != t[i] {
        return false;
      }
    }
    assert s[..|s|] == s && t[..|t|] == t;
    eq := true;
  }
}
