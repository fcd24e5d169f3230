/** Stable insertion sort: the specification of sort.Strings and sort.SliceStable. */
module Sorting {
  import opened Text

  ghost predicate TotalPreorder<T(!new)>(le: (T, T) -> bool) {
    && (forall x, y :: le(x, y) || le(y, x))
    && (forall x, y, z :: le(x, y) && le(y, z) ==> le(x, z))
  }

  ghost predicate SortedBy<T>(le: (T, T) -> bool, s: seq<T>) {
    forall i, j :: 0 <= i < j < |s| ==> le(s[i], s[j])
  }

  function Insert<T>(le: (T, T) -> bool, x: T, s: seq<T>): (r: seq<T>)
    ensures multiset(r) == multiset(s) + multiset{x}
  {
    if s == [] || le(x, s[0]) then
      [x] + s
    else
      assert s == [s[0]] + s[1..];
      [s[0]] + Insert(le, x, s[1..])
  }

  function Sort<T>(le: (T, T) -> bool, s: seq<T>): (r: seq<T>)
    ensures multiset(r) == multiset(s)
    ensures |r| == |s|
  {
    if s == [] then
      []
    else
      assert s == [s[0]] + s[1..];
      var r := Insert(le, s[0], Sort(le, s[1..]));
      assert |r| == |multiset(r)| == |multiset(s)| == |s|;
      r
  }

  lemma {:induction false} InsertSorts<T(!new)>(le: (T, T) -> bool, x: T, s: seq<T>)
    requires TotalPreorder(le) && SortedBy(le, s)
    ensures SortedBy(le, Insert(le, x, s))
  {
    if s != [] && !le(x, s[0]) {
      InsertSorts(le, x, s[1..]);
      var r := Insert(le, x, s[1..]);
      forall y | y in r ensures le(s[0], y) {
        assert y in multiset(r);
        assert y in multiset(s[1..]) || y == x;
      }
    }
  }

  lemma {:induction false} SortSorts<T(!new)>(le: (T, T) -> bool, s: seq<T>)
    requires TotalPreorder(le)
    ensures SortedBy(le, Sort(le, s))
  {
    if s != [] {
      SortSorts(le, s[1..]);
      InsertSorts(le, s[0], Sort(le, s[1..]));
    }
  }

  function Select<T(!new)>(p: T -> bool, s: seq<T>): seq<T> {
    if s == [] then [] else (if p(s[0]) then [s[0]] else []) + Select(p, s[1..])
  }

  lemma {:induction false} SelectAppend<T(!new)>(p: T -> bool, a: seq<T>, b: seq<T>)
    ensures Select(p, a + b) == Select(p, a) + Select(p, b)
  {
    if a == [] {
      assert a + b == b;
    } else {
      var x, t := a[0], a[1..];
      assert a == [x] + t && a + b == [x] + (t + b);
      SelectAppend(p, t, b);
      SelectCons(p, x, t + b);
      SelectCons(p, x, t);
      hide Select;
    }
  }

  /** A class of elements the order does not tell apart. */
  ghost predicate Tied<T(!new)>(le: (T, T) -> bool, p: T -> bool) {
    forall x, y :: p(x) && p(y) ==> le(x, y)
  }

  lemma SelectCons<T(!new)>(p: T -> bool, x: T, s: seq<T>)
    ensures Select(p, [x] + s) == (if p(x) then [x] else []) + Select(p, s)
  {
    assert ([x] + s)[1..] == s;
  }

  lemma {:induction false} InsertIsStable<T(!new)>(le: (T, T) -> bool, p: T -> bool, x: T, s: seq<T>)
    requires Tied(le, p)
    ensures Select(p, Insert(le, x, s)) == Select(p, [x] + s)
  {
    if s != [] && !le(x, s[0]) {
      var y, t := s[0], s[1..];
      assert s == [y] + t;
      assert !p(x) || !p(y);
      calc {
        Select(p, Insert(le, x, s));
        Select(p, [y] + Insert(le, x, t));
        { SelectCons(p, y, Insert(le, x, t)); }
        (if p(y) then [y] else []) + Select(p, Insert(le, x, t));
        { InsertIsStable(le, p, x, t); SelectCons(p, x, t); }
        (if p(y) then [y] else []) + ((if p(x) then [x] else []) + Select(p, t));
        (if p(x) then [x] else []) + ((if p(y) then [y] else []) + Select(p, t));
        { SelectCons(p, y, t); SelectCons(p, x, s); }
        Select(p, [x] + s);
      }
    }
  }

  /** Elements the order does not tell apart keep their relative order. */
  lemma {:induction false} SortIsStable<T(!new)>(le: (T, T) -> bool, p: T -> bool, s: seq<T>)
    requires Tied(le, p)
    ensures Select(p, Sort(le, s)) == Select(p, s)
  {
    if s != [] {
      SortIsStable(le, p, s[1..]);
      InsertIsStable(le, p, s[0], Sort(le, s[1..]));
      SelectCons(p, s[0], Sort(le, s[1..]));
      SelectCons(p, s[0], s[1..]);
      assert s == [s[0]] + s[1..];
    }
  }

  lemma LexIsTotalPreorder()
    ensures TotalPreorder(LexLe)
  {
    forall x, y ensures LexLe(x, y) || LexLe(y, x) { LexTotal(x, y); }
    forall x, y, z | LexLe(x, y) && LexLe(y, z) ensures LexLe(x, z) { LexTransitive(x, y, z); }
  }

  function SortStrings(s: seq<string>): (r: seq<string>)
    ensures multiset(r) == multiset(s)
  {
    Sort(LexLe, s)
  }

  lemma LeastIsFirst(a: seq<string>, x: string)
    requires SortedBy(LexLe, a) && x in multiset(a)
    ensures LexLe(a[0], x)
  {
    assert x in a;
    LexTotal(a[0], a[0]);
  }

  lemma Tail(a: seq<string>)
    requires a != []
    ensures a[0] in multiset(a) && multiset(a[1..]) == multiset(a) - multiset{a[0]}
  {
    assert a == [a[0]] + a[1..];
    assert a[0] in a;
  }

  lemma SameHead(a: seq<string>, b: seq<string>)
    requires SortedBy(LexLe, a) && SortedBy(LexLe, b) && multiset(a) == multiset(b) && a != [] && b != []
    ensures a[0] == b[0] && multiset(a[1..]) == multiset(b[1..])
  {
    Tail(a);
    Tail(b);
    LeastIsFirst(a, b[0]);
    LeastIsFirst(b, a[0]);
    hide SortedBy, LexLe;
    LexAntisymmetric(a[0], b[0]);
  }

  lemma {:induction false} SortedStringsUnique(a: seq<string>, b: seq<string>)
    requires SortedBy(LexLe, a) && SortedBy(LexLe, b) && multiset(a) == multiset(b)
    ensures a == b
    decreases |a|
  {
    hide LexLe;
    if a == [] || b == [] {
      assert |a| == |multiset(a)| == |multiset(b)| == |b|;
    } else {
      SameHead(a, b);
      SortedStringsUnique(a[1..], b[1..]);
      assert a == [a[0]] + a[1..] && b == [b[0]] + b[1..];
    }
  }

  /** Sorting forgets the order: permutations sort to the same list. */
  lemma SortForgetsOrder(a: seq<string>, b: seq<string>)
    requires multiset(a) == multiset(b)
    ensures SortStrings(a) == SortStrings(b)
  {
    LexIsTotalPreorder();
    SortSorts(LexLe, a);
    SortSorts(LexLe, b);
    SortedStringsUnique(SortStrings(a), SortStrings(b));
  }
}
