// Splitting a sequence after every terminator, the terminator kept: what
// `split_inclusive` yields over bytes and over text alike.
module Lines {

  // Where the first `nl` of `s` is, or |s|.
  function IndexOf<T(==)>(s: seq<T>, nl: T): (i: nat)
    ensures i <= |s|
    ensures nl !in s[..i]
    ensures i < |s| ==> s[i] == nl
  {
    if s == [] || s[0] == nl then 0
    else
      var i := 1 + IndexOf(s[1..], nl);
      assert s[..i] == [s[0]] + s[1..][..i - 1];
      i
  }

  function SplitInclusive<T(==)>(s: seq<T>, nl: T): seq<seq<T>>
    decreases |s|
  {
    var i := IndexOf(s, nl);
    if s == [] then []
    else if i == |s| then [s]
    else [s[..i + 1]] + SplitInclusive(s[i + 1..], nl)
  }

  function Flatten<T>(lines: seq<seq<T>>): seq<T> {
    if lines == [] then [] else lines[0] + Flatten(lines[1..])
  }

  predicate Terminated<T(==)>(s: seq<T>, nl: T) {
    |s| > 0 && s[|s| - 1] == nl
  }

  // A line holds its terminator at its end or nowhere.
  predicate IsLine<T(==)>(s: seq<T>, nl: T) {
    |s| > 0 && nl !in s[..|s| - 1]
  }

  predicate AreLines<T(==)>(lines: seq<seq<T>>, nl: T) {
    && (forall i :: 0 <= i < |lines| ==> IsLine(lines[i], nl))
    && (forall i :: 0 <= i < |lines| - 1 ==> Terminated(lines[i], nl))
  }

  lemma IndexOfFirst<T>(a: seq<T>, nl: T, b: seq<T>)
    requires nl !in a
    ensures IndexOf(a + [nl] + b, nl) == |a|
  {
    var s := a + [nl] + b;
    assert s[|a|] == nl;
    assert forall k :: 0 <= k < |a| ==> s[k] == a[k];
  }

  // The split is made of lines and loses nothing ...
  lemma {:induction false} SplitIsLines<T>(s: seq<T>, nl: T)
    ensures AreLines(SplitInclusive(s, nl), nl)
    ensures Flatten(SplitInclusive(s, nl)) == s
    decreases |s|
  {
    var i := IndexOf(s, nl);
    if s == [] {
    } else if i == |s| {
      forall k | 0 <= k < |s| - 1
        ensures s[k] != nl
      {
        assert s[k] == s[..i][k];
      }
      assert IsLine(s, nl);
      assert Flatten([s]) == s + Flatten([]);
    } else {
      var rest := SplitInclusive(s[i + 1..], nl);
      SplitIsLines(s[i + 1..], nl);
      assert s[..i + 1][..i] == s[..i];
      assert ([s[..i + 1]] + rest)[1..] == rest;
    }
  }

  // ... and nothing else is: lines put together split into the same lines.
  lemma {:induction false} SplitOfFlatten<T>(lines: seq<seq<T>>, nl: T)
    requires AreLines(lines, nl)
    ensures SplitInclusive(Flatten(lines), nl) == lines
    decreases |lines|
  {
    if lines != [] {
      var head, rest := lines[0], Flatten(lines[1..]);
      var s := head + rest;
      SplitOfFlatten(lines[1..], nl);
      if Terminated(head, nl) {
        var body := head[..|head| - 1];
        assert s == body + [nl] + rest;
        IndexOfFirst(body, nl, rest);
        assert s[..|head|] == head && s[|head|..] == rest;
      } else {
        assert lines == [head];
        assert s == head;
        assert head == head[..|head| - 1] + [head[|head| - 1]];
        assert IndexOf(s, nl) == |s|;
      }
    }
  }

  lemma {:induction false} FlattenAppend<T>(a: seq<seq<T>>, b: seq<seq<T>>)
    ensures Flatten(a + b) == Flatten(a) + Flatten(b)
  {
    if a == [] {
      assert a + b == b;
    } else {
      assert (a + b)[1..] == a[1..] + b;
      FlattenAppend(a[1..], b);
    }
  }

  lemma {:induction false} FlattenTerminated<T>(lines: seq<seq<T>>, nl: T)
    requires AreLines(lines, nl)
    requires lines != []
    ensures Flatten(lines) != []
    ensures Terminated(Flatten(lines), nl) <==> Terminated(lines[|lines| - 1], nl)
  {
    var k := |lines| - 1;
    var last := lines[k];
    assert lines == lines[..k] + [last];
    FlattenAppend(lines[..k], [last]);
    assert Flatten([last]) == last + Flatten([]);
    var s := Flatten(lines);
    assert s[|s| - 1] == last[|last| - 1];
  }

  // Two files whose first part ends in a terminator split side by side.
  lemma SplitAppend<T>(a: seq<T>, b: seq<T>, nl: T)
    requires a == [] || Terminated(a, nl)
    ensures SplitInclusive(a + b, nl) == SplitInclusive(a, nl) + SplitInclusive(b, nl)
  {
    var la, lb := SplitInclusive(a, nl), SplitInclusive(b, nl);
    SplitIsLines(a, nl);
    SplitIsLines(b, nl);
    if la == [] {
      assert a == [];
      assert a + b == b && la + lb == lb;
    } else {
      FlattenTerminated(la, nl);
      FlattenAppend(la, lb);
      SplitOfFlatten(la + lb, nl);
    }
  }
}
