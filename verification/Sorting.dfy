/** Go's sort.Slice: some sorted permutation, with no promise about equal elements. */
module Sorting {

  ghost predicate TotalPreorder<T(!new)>(le: (T, T) -> bool) {
    && (forall a, b :: le(a, b) || le(b, a))
    && (forall a, b, c :: le(a, b) && le(b, c) ==> le(a, c))
  }

  ghost predicate Sorted<T>(s: seq<T>, le: (T, T) -> bool) {
    forall i, j | 0 <= i < j < |s| :: le(s[i], s[j])
  }

  ghost predicate SortOf<T>(r: seq<T>, s: seq<T>, le: (T, T) -> bool) {
    multiset(r) == multiset(s) && Sorted(r, le)
  }

  function Inserted<T>(s: seq<T>, x: T, le: (T, T) -> bool): seq<T> {
    if s == [] || !le(s[0], x) then [x] + s else [s[0]] + Inserted(s[1..], x, le)
  }

  lemma {:induction false} InsertedPermutes<T(!new)>(s: seq<T>, x: T, le: (T, T) -> bool)
    ensures multiset(Inserted(s, x, le)) == multiset(s) + multiset{x}
  {
    if s == [] || !le(s[0], x) {
    } else {
      InsertedPermutes(s[1..], x, le);
      assert s == [s[0]] + s[1..];
    }
  }

  lemma {:induction false} InsertedSorts<T(!new)>(s: seq<T>, x: T, le: (T, T) -> bool)
    requires TotalPreorder(le) && Sorted(s, le)
    ensures Sorted(Inserted(s, x, le), le)
  {
    if s == [] || !le(s[0], x) {
    } else {
      InsertedSorts(s[1..], x, le);
      InsertedPermutes(s[1..], x, le);
      var rest := Inserted(s[1..], x, le);
      forall j | 0 <= j < |rest| ensures le(s[0], rest[j]) {
        assert rest[j] in multiset(s[1..]) + multiset{x};
      }
    }
  }

  method Sort<T(!new)>(s: seq<T>, le: (T, T) -> bool) returns (r: seq<T>)
    requires TotalPreorder(le)
    ensures SortOf(r, s, le)
  {
    r := [];
    for i := 0 to |s|
      invariant SortOf(r, s[..i], le)
    {
      InsertedSorts(r, s[i], le);
      InsertedPermutes(r, s[i], le);
      r := Inserted(r, s[i], le);
      assert s[..i + 1] == s[..i] + [s[i]];
    }
    assert s[..|s|] == s;
  }

  ghost predicate NoTies<T(!new)>(m: multiset<T>, le: (T, T) -> bool) {
    forall x, y | x in m && y in m :: le(x, y) && le(y, x) ==> x == y
  }

  lemma SameHead<T(!new)>(a: seq<T>, b: seq<T>, le: (T, T) -> bool)
    requires TotalPreorder(le) && multiset(a) == multiset(b) && Sorted(a, le) && Sorted(b, le)
    requires NoTies(multiset(a), le) && a != [] && b != []
    ensures a[0] == b[0]
  {
    assert a[0] in multiset(b) && b[0] in multiset(a);
    var i :| 0 <= i < |b| && b[i] == a[0];
    var j :| 0 <= j < |a| && a[j] == b[0];
    assert le(a[0], a[j]) && le(b[0], b[i]);
  }

  lemma TailMultiset<T>(a: seq<T>)
    requires a != []
    ensures multiset(a[1..]) == multiset(a) - multiset{a[0]}
  {
    assert a == [a[0]] + a[1..];
  }

  /** Under an order without ties there is only one sorted permutation. */
  lemma {:induction false} SortUnique<T(!new)>(a: seq<T>, b: seq<T>, le: (T, T) -> bool)
    requires TotalPreorder(le) && multiset(a) == multiset(b) && Sorted(a, le) && Sorted(b, le)
    requires NoTies(multiset(a), le)
    ensures a == b
  {
    SameLength(a, b);
    if a == [] {
    } else {
      SameHead(a, b, le);
      TailMultiset(a);
      TailMultiset(b);
      TailNoTies(a, le);
      SortUnique(a[1..], b[1..], le);
      ConsEqual(a, b);
    }
  }

  lemma SameLength<T>(a: seq<T>, b: seq<T>)
    requires multiset(a) == multiset(b)
    ensures |a| == |b|
  {
    assert |multiset(a)| == |a| && |multiset(b)| == |b|;
  }

  lemma TailNoTies<T(!new)>(a: seq<T>, le: (T, T) -> bool)
    requires a != [] && NoTies(multiset(a), le)
    ensures NoTies(multiset(a[1..]), le)
  {
    TailMultiset(a);
    assert forall x | x in multiset(a[1..]) :: x in multiset(a);
  }

  lemma ConsEqual<T>(a: seq<T>, b: seq<T>)
    requires a != [] && b != [] && a[0] == b[0] && a[1..] == b[1..]
    ensures a == b
  {
    assert a == [a[0]] + a[1..] && b == [b[0]] + b[1..];
  }

  // ---------- strings

  /** Go's `<=` on strings. */
  predicate StringLe(a: string, b: string) {
    a == "" || (b != "" && (a[0] < b[0] || (a[0] == b[0] && StringLe(a[1..], b[1..]))))
  }

  lemma {:induction false} StringLeTotal(a: string, b: string)
    ensures StringLe(a, b) || StringLe(b, a)
    ensures StringLe(a, b) && StringLe(b, a) ==> a == b
  {
    if a == "" || b == "" || a[0] != b[0] {
    } else {
      StringLeTotal(a[1..], b[1..]);
      assert a == [a[0]] + a[1..] && b == [b[0]] + b[1..];
    }
  }

  lemma {:induction false} StringLeTransitive(a: string, b: string, c: string)
    requires StringLe(a, b) && StringLe(b, c)
    ensures StringLe(a, c)
  {
    if a == "" || !(a[0] == b[0] == c[0]) {
    } else {
      StringLeTransitive(a[1..], b[1..], c[1..]);
    }
  }

  /** Up to the first difference the strings agree; there the smaller has the smaller character, or has ended. */
  lemma {:induction false} StringLeMeans(a: string, b: string) returns (n: nat)
    ensures n <= |a| && n <= |b| && a[..n] == b[..n] && (n < |a| && n < |b| ==> a[n] != b[n])
    ensures StringLe(a, b) <==> n == |a| || (n < |b| && a[n] < b[n])
  {
    if a == "" || b == "" || a[0] != b[0] {
      n := 0;
    } else {
      var m := StringLeMeans(a[1..], b[1..]);
      n := m + 1;
      assert a[..n] == [a[0]] + a[1..][..m] && b[..n] == [b[0]] + b[1..][..m];
    }
  }

  lemma StringLePreorder()
    ensures TotalPreorder(StringLe)
  {
    forall a, b ensures StringLe(a, b) || StringLe(b, a) {
      StringLeTotal(a, b);
    }
    forall a, b, c | StringLe(a, b) && StringLe(b, c) ensures StringLe(a, c) {
      StringLeTransitive(a, b, c);
    }
  }

  lemma CountTwice<T>(s: seq<T>, i: nat, j: nat)
    requires i < j < |s| && s[i] == s[j]
    ensures multiset(s)[s[i]] >= 2
  {
    assert s == s[..j] + [s[j]] + s[j + 1..];
    assert s[..j][i] == s[i];
  }
}
