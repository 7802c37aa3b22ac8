// Stable sorting of values, and the order byte strings sort in.
module Sorting {
  ghost predicate TotalPreorder<T(!new)>(le: (T, T) -> bool) {
    && (forall x, y :: le(x, y) || le(y, x))
    && (forall x, y, z :: le(x, y) && le(y, z) ==> le(x, z))
  }

  ghost predicate Sorted<T>(s: seq<T>, le: (T, T) -> bool) {
    forall i, j :: 0 <= i < j < |s| ==> le(s[i], s[j])
  }

  function Insert<T>(x: T, s: seq<T>, le: (T, T) -> bool): seq<T> {
    if s == [] || le(x, s[0]) then [x] + s else [s[0]] + Insert(x, s[1..], le)
  }

  function Sort<T>(s: seq<T>, le: (T, T) -> bool): seq<T> {
    if s == [] then [] else Insert(s[0], Sort(s[1..], le), le)
  }

  lemma {:induction false} InsertPermutes<T>(x: T, s: seq<T>, le: (T, T) -> bool)
    ensures multiset(Insert(x, s, le)) == multiset(s) + multiset{x}
  {
    if s != [] && !le(x, s[0]) {
      InsertPermutes(x, s[1..], le);
      assert s == [s[0]] + s[1..];
    }
  }

  lemma {:induction false} SortPermutes<T>(s: seq<T>, le: (T, T) -> bool)
    ensures multiset(Sort(s, le)) == multiset(s)
    ensures |Sort(s, le)| == |s|
  {
    if s != [] {
      SortPermutes(s[1..], le);
      InsertPermutes(s[0], Sort(s[1..], le), le);
      assert s == [s[0]] + s[1..];
    }
    assert |multiset(Sort(s, le))| == |multiset(s)|;
  }

  lemma {:induction false} InsertSorted<T(!new)>(x: T, s: seq<T>, le: (T, T) -> bool)
    requires TotalPreorder(le) && Sorted(s, le)
    ensures Sorted(Insert(x, s, le), le)
  {
    if s != [] && !le(x, s[0]) {
      var rest := Insert(x, s[1..], le);
      InsertSorted(x, s[1..], le);
      InsertPermutes(x, s[1..], le);
      forall k | 0 <= k < |rest|
        ensures le(s[0], rest[k])
      {
        assert rest[k] in multiset(rest);
        assert rest[k] == x || rest[k] in s[1..];
      }
    }
  }

  lemma {:induction false} SortSorts<T(!new)>(s: seq<T>, le: (T, T) -> bool)
    requires TotalPreorder(le)
    ensures Sorted(Sort(s, le), le)
  {
    if s != [] {
      SortSorts(s[1..], le);
      InsertSorted(s[0], Sort(s[1..], le), le);
    }
  }

  // Two sorted arrangements of the same values are one, when the order tells
  // any two of the values apart.
  lemma {:induction false} SortedUnique<T(!new)>(a: seq<T>, b: seq<T>, le: (T, T) -> bool)
    requires Sorted(a, le) && Sorted(b, le) && multiset(a) == multiset(b)
    requires forall x, y :: x in a && y in a && le(x, y) && le(y, x) ==> x == y
    ensures a == b
  {
    assert |multiset(a)| == |multiset(b)|;
    if a != [] {
      SameFirst(a, b, le);
      SameRest(a, b);
      assert forall x :: x in a[1..] ==> x in a;
      SortedUnique(a[1..], b[1..], le);
      assert a == [a[0]] + a[1..] && b == [b[0]] + b[1..];
    }
  }

  lemma SameFirst<T(!new)>(a: seq<T>, b: seq<T>, le: (T, T) -> bool)
    requires Sorted(a, le) && Sorted(b, le) && multiset(a) == multiset(b) && a != [] && b != []
    requires forall x, y :: x in a && y in a && le(x, y) && le(y, x) ==> x == y
    ensures a[0] == b[0]
  {
    assert a[0] in multiset(b) && b[0] in multiset(a);
    assert a[0] in b && b[0] in a;
  }

  lemma SameRest<T>(a: seq<T>, b: seq<T>)
    requires a != [] && b != [] && a[0] == b[0] && multiset(a) == multiset(b)
    ensures multiset(a[1..]) == multiset(b[1..])
  {
    assert a == [a[0]] + a[1..] && b == [b[0]] + b[1..];
    assert multiset(a[1..]) == multiset(a) - multiset{a[0]};
    assert multiset(b[1..]) == multiset(b) - multiset{b[0]};
  }

  // Byte strings compare byte by byte, a prefix first.
  predicate Before(a: seq<int>, b: seq<int>) {
    if b == [] then false
    else if a == [] then true
    else if a[0] == b[0] then Before(a[1..], b[1..])
    else a[0] < b[0]
  }

  lemma {:induction false} BeforeTrichotomy(a: seq<int>, b: seq<int>)
    ensures a == b || Before(a, b) || Before(b, a)
    ensures !(Before(a, b) && Before(b, a)) && !Before(a, a)
    decreases |a|
  {
    if a != [] {
      BeforeTrichotomy(a[1..], a[1..]);
      if b != [] && a[0] == b[0] {
        assert a == [a[0]] + a[1..] && b == [b[0]] + b[1..];
        BeforeTrichotomy(a[1..], b[1..]);
      }
    }
  }

  lemma {:induction false} BeforeTransitive(a: seq<int>, b: seq<int>, c: seq<int>)
    requires Before(a, b) && Before(b, c)
    ensures Before(a, c)
  {
    if a != [] && a[0] == b[0] && b[0] == c[0] {
      BeforeTransitive(a[1..], b[1..], c[1..]);
    }
  }

  lemma NotBeforeTransitive(a: seq<int>, b: seq<int>, c: seq<int>)
    ensures !Before(b, a) && !Before(c, b) ==> !Before(c, a)
  {
    BeforeTrichotomy(a, b);
    BeforeTrichotomy(b, c);
    if Before(c, a) && !Before(b, a) && a != b {
      BeforeTransitive(c, a, b);
    }
  }

  // A string as the bytes it sorts by; every name here is ASCII.
  function Codes(name: string): seq<int> {
    seq(|name|, i requires 0 <= i < |name| => name[i] as int)
  }

  // Text of one length decides before anything after it does.
  lemma {:induction false} BeforeAppend(a: seq<int>, x: seq<int>, b: seq<int>, y: seq<int>)
    requires |a| == |b|
    ensures Before(a + x, b + y) <==> Before(a, b) || (a == b && Before(x, y))
  {
    if a == [] {
      assert a + x == x && b + y == y;
    } else {
      assert (a + x)[1..] == a[1..] + x && (b + y)[1..] == b[1..] + y;
      assert a == [a[0]] + a[1..] && b == [b[0]] + b[1..];
      BeforeAppend(a[1..], x, b[1..], y);
    }
  }
}
