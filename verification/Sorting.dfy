// Sorting by a string key, as sort.Strings and sort.Slice are used: on lists
// whose keys are all different, so that the result does not depend on how.
module Sorting {
  import opened Text

  predicate Ascending<T>(s: seq<T>, key: T -> string) {
    forall i, j :: 0 <= i < j < |s| ==> Less(key(s[i]), key(s[j]))
  }

  predicate DistinctKeys<T>(s: seq<T>, key: T -> string) {
    forall i, j :: 0 <= i < j < |s| ==> key(s[i]) != key(s[j])
  }

  method Sort<T(==)>(s: seq<T>, key: T -> string) returns (sorted: seq<T>)
    requires DistinctKeys(s, key)
    ensures Ascending(sorted, key)
    ensures multiset(sorted) == multiset(s)
  {
    sorted := [];
    for i := 0 to |s|
      invariant Ascending(sorted, key)
      invariant multiset(sorted) == multiset(s[..i])
    {
      forall x | x in sorted ensures key(x) != key(s[i]) {
        assert x in multiset(s[..i]);
        assert x in s[..i];
      }
      sorted := Insert(sorted, s[i], key);
      assert s[..i + 1] == s[..i] + [s[i]];
    }
    assert s[..|s|] == s;
  }

  method Insert<T(==)>(s: seq<T>, x: T, key: T -> string) returns (r: seq<T>)
    requires Ascending(s, key)
    requires forall y :: y in s ==> key(y) != key(x)
    ensures Ascending(r, key)
    ensures multiset(r) == multiset(s) + multiset{x}
  {
    var at := 0;
    while at < |s| && Less(key(s[at]), key(x))
      invariant 0 <= at <= |s|
      invariant forall i :: 0 <= i < at ==> Less(key(s[i]), key(x))
    {
      at := at + 1;
    }
    r := s[..at] + [x] + s[at..];
    assert s == s[..at] + s[at..];
    forall i, j | 0 <= i < j < |r| ensures Less(key(r[i]), key(r[j])) {
      Placed(s, x, at, key, i, j);
    }
  }

  // An element put after those below it is below those that follow.
  lemma Placed<T>(s: seq<T>, x: T, at: nat, key: T -> string, i: nat, j: nat)
    requires Ascending(s, key) && at <= |s|
    requires forall k :: 0 <= k < at ==> Less(key(s[k]), key(x))
    requires at < |s| ==> !Less(key(s[at]), key(x)) && key(s[at]) != key(x)
    requires i < j <= |s|
    ensures var r := s[..at] + [x] + s[at..]; Less(key(r[i]), key(r[j]))
  {
    if i == at {
      LessTrichotomy(key(s[at]), key(x));
      if j > at + 1 {
        LessTransitive(key(x), key(s[at]), key(s[j - 1]));
      }
    }
  }

  // An ascending list is determined by its elements.
  lemma {:induction false} AscendingUnique<T>(a: seq<T>, b: seq<T>, key: T -> string)
    requires Ascending(a, key) && Ascending(b, key)
    requires forall x :: x in a <==> x in b
    ensures a == b
  {
    if a == [] {
      HeadIn(b);
    } else {
      assert a[0] in b;
      FirstIsLeast(a, b, key);
      FirstIsLeast(b, a, key);
      LessTrichotomy(key(a[0]), key(b[0]));
      assert key(a[0]) == key(b[0]);
      var k :| 0 <= k < |b| && b[k] == a[0];
      KeysAreDistinct(b, key, 0, k);
      forall x ensures x in a[1..] <==> x in b[1..] {
        InTail(a, x, key);
        InTail(b, x, key);
      }
      AscendingUnique(a[1..], b[1..], key);
      assert a == [a[0]] + a[1..] && b == [b[0]] + b[1..];
    }
  }

  lemma KeysAreDistinct<T>(s: seq<T>, key: T -> string, i: nat, j: nat)
    requires Ascending(s, key) && i <= j < |s|
    ensures key(s[i]) == key(s[j]) ==> i == j
  {
    LessTrichotomy(key(s[i]), key(s[j]));
  }

  lemma HeadIn<T>(b: seq<T>)
    ensures b != [] ==> b[0] in b
  {
  }

  lemma FirstIsLeast<T>(a: seq<T>, b: seq<T>, key: T -> string)
    requires Ascending(a, key) && a != [] && b != [] && b[0] in a
    ensures !Less(key(b[0]), key(a[0]))
  {
    var k :| 0 <= k < |a| && a[k] == b[0];
    LessTrichotomy(key(a[0]), key(b[0]));
    if k > 0 {
      assert Less(key(a[0]), key(a[k]));
    }
  }

  lemma InTail<T>(a: seq<T>, x: T, key: T -> string)
    requires Ascending(a, key) && a != []
    ensures x in a[1..] <==> x in a && x != a[0]
  {
    if x in a[1..] {
      var k :| 1 <= k < |a| && a[k] == x;
      LessTrichotomy(key(a[0]), key(a[k]));
    }
  }
}
