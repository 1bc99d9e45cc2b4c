/** Sorted listings: the strings.Compare order, slices.Sort, and the fact that a set has one sorted listing. */
module Ordering {

  /** Go compares strings byte by byte; for UTF-8 that is the order of the characters. */
  predicate StringLe(a: string, b: string) {
    a == [] || (b != [] && (a[0] < b[0] || (a[0] == b[0] && StringLe(a[1..], b[1..]))))
  }

  predicate PairLe(p: (string, string), q: (string, string)) {
    if p.0 == q.0 then StringLe(p.1, q.1) else StringLe(p.0, q.0)
  }

  /** Any two elements are comparable, and comparing is transitive. */
  ghost predicate Compares<T(!new)>(le: (T, T) -> bool) {
    && (forall a, b :: le(a, b) || le(b, a))
    && (forall a, b, c :: le(a, b) && le(b, c) ==> le(a, c))
  }

  ghost predicate TotalOrder<T(!new)>(le: (T, T) -> bool) {
    Compares(le) && forall a, b :: le(a, b) && le(b, a) ==> a == b
  }

  lemma {:induction false} StringLeTotal(a: string, b: string)
    ensures StringLe(a, b) || StringLe(b, a)
    ensures StringLe(a, b) && StringLe(b, a) ==> a == b
  {
    if a != [] && b != [] {
      StringLeTotal(a[1..], b[1..]);
      if a[0] == b[0] && a[1..] == b[1..] {
        assert a == [a[0]] + a[1..] && b == [b[0]] + b[1..];
      }
    }
  }

  lemma {:induction false} StringLeTransitive(a: string, b: string, c: string)
    requires StringLe(a, b) && StringLe(b, c)
    ensures StringLe(a, c)
  {
    if a != [] && a[0] == b[0] == c[0] {
      StringLeTransitive(a[1..], b[1..], c[1..]);
    }
  }

  lemma StringOrder()
    ensures TotalOrder(StringLe)
  {
    forall a, b
      ensures StringLe(a, b) || StringLe(b, a)
      ensures StringLe(a, b) && StringLe(b, a) ==> a == b
    {
      StringLeTotal(a, b);
    }
    forall a, b, c | StringLe(a, b) && StringLe(b, c)
      ensures StringLe(a, c)
    {
      StringLeTransitive(a, b, c);
    }
  }

  lemma PairOrder()
    ensures TotalOrder(PairLe)
  {
    StringOrder();
  }

  /** In order, without repetition. */
  predicate Listed<T(==)>(le: (T, T) -> bool, s: seq<T>) {
    forall i, j :: 0 <= i < j < |s| ==> le(s[i], s[j]) && s[i] != s[j]
  }

  predicate Nondecreasing<T>(le: (T, T) -> bool, s: seq<T>) {
    forall i, j :: 0 <= i < j < |s| ==> le(s[i], s[j])
  }

  predicate Distinct<T(==)>(s: seq<T>) {
    forall i, j :: 0 <= i < j < |s| ==> s[i] != s[j]
  }

  function Elements<T>(s: seq<T>): set<T> {
    set x | x in s
  }

  function Insert<T>(le: (T, T) -> bool, x: T, s: seq<T>): seq<T> {
    if s == [] then [x] else if le(x, s[0]) then [x] + s else [s[0]] + Insert(le, x, s[1..])
  }

  /** slices.Sort and slices.SortFunc. */
  function Sort<T>(le: (T, T) -> bool, s: seq<T>): seq<T> {
    if s == [] then [] else Insert(le, s[0], Sort(le, s[1..]))
  }

  lemma ElementsOfConcat<T>(a: seq<T>, b: seq<T>)
    ensures Elements(a + b) == Elements(a) + Elements(b)
  {
    assert forall x :: x in a + b <==> x in a || x in b;
  }

  lemma {:induction false} InsertElements<T>(le: (T, T) -> bool, x: T, s: seq<T>)
    ensures Elements(Insert(le, x, s)) == Elements(s) + {x}
    ensures |Insert(le, x, s)| == |s| + 1
  {
    if s == [] {
    } else if le(x, s[0]) {
      ElementsOfConcat([x], s);
    } else {
      InsertElements(le, x, s[1..]);
      ElementsOfConcat([s[0]], s[1..]);
      ElementsOfConcat([s[0]], Insert(le, x, s[1..]));
      assert s == [s[0]] + s[1..];
    }
  }

  lemma {:induction false} InsertSorts<T(!new)>(le: (T, T) -> bool, x: T, s: seq<T>)
    requires Compares(le) && Nondecreasing(le, s)
    ensures Nondecreasing(le, Insert(le, x, s))
    ensures Distinct(s) && x !in s ==> Distinct(Insert(le, x, s))
  {
    if s != [] && !le(x, s[0]) {
      var tail := Insert(le, x, s[1..]);
      InsertSorts(le, x, s[1..]);
      InsertElements(le, x, s[1..]);
      forall y | y in tail
        ensures le(s[0], y) && (Distinct(s) && x !in s ==> s[0] != y)
      {
        assert y in Elements(tail);
      }
    }
  }

  lemma {:induction false} SortSorts<T(!new)>(le: (T, T) -> bool, s: seq<T>)
    requires Compares(le)
    ensures Nondecreasing(le, Sort(le, s)) && Elements(Sort(le, s)) == Elements(s) && |Sort(le, s)| == |s|
    ensures Distinct(s) ==> Distinct(Sort(le, s))
  {
    if s != [] {
      assert s == [s[0]] + s[1..];
      SortSorts(le, s[1..]);
      InsertSorts(le, s[0], Sort(le, s[1..]));
      InsertElements(le, s[0], Sort(le, s[1..]));
      assert s[0] in Sort(le, s[1..]) ==> s[0] in Elements(s[1..]);
    }
  }

  /** The sorted listing of a set. */
  ghost function Listing<T(!new)>(le: (T, T) -> bool, s: set<T>): (r: seq<T>)
    requires TotalOrder(le)
    ensures Listed(le, r) && Elements(r) == s && |r| == |s|
  {
    if s == {} then []
    else
      var x :| x in s;
      var rest := Listing(le, s - {x});
      assert x !in Elements(rest);
      InsertSorts(le, x, rest);
      InsertElements(le, x, rest);
      Insert(le, x, rest)
  }

  lemma EmptyElements<T>(s: seq<T>)
    ensures Elements(s) == {} <==> s == []
  {
    if s != [] {
      assert s[0] in Elements(s);
    }
  }

  lemma {:induction false} ListingIsUnique<T(!new)>(le: (T, T) -> bool, r: seq<T>, s: seq<T>)
    requires TotalOrder(le) && Listed(le, r) && Listed(le, s) && Elements(r) == Elements(s)
    ensures r == s
  {
    EmptyElements(r);
    EmptyElements(s);
    if r != [] {
      assert r[0] in Elements(s);
      assert s[0] in Elements(r);
      assert r[0] == s[0];
      TailElements(r);
      TailElements(s);
      ListingIsUnique(le, r[1..], s[1..]);
    }
  }

  lemma TailElements<T>(r: seq<T>)
    requires r != [] && Distinct(r)
    ensures Elements(r[1..]) == Elements(r) - {r[0]}
  {
    ElementsOfConcat([r[0]], r[1..]);
    assert r == [r[0]] + r[1..];
  }

  /** Sorting a sequence without repetitions lists its elements. */
  lemma SortLists<T(!new)>(le: (T, T) -> bool, s: seq<T>)
    requires TotalOrder(le) && Distinct(s)
    ensures Sort(le, s) == Listing(le, Elements(s))
  {
    SortSorts(le, s);
    ListingIsUnique(le, Sort(le, s), Listing(le, Elements(s)));
  }
}
