/** Small datatypes shared by the modules of this project. */
module Common {

  /** A value that may be absent, as Python's `None`. */
  datatype Option<+T> = None | Some(value: T)
}

/** Sizes of finite sets, and their elements as a list. */
module Sets {
  import opened Sorting

  lemma SubsetSize<T>(a: set<T>, b: set<T>)
    requires a <= b
    ensures |a| <= |b|
  {
    assert b == a + (b - a);
  }

  lemma UnionSize<T>(a: set<T>, b: set<T>)
    ensures |a + b| <= |a| + |b|
  {
    assert a + b == a + (b - a);
    SubsetSize(b - a, b);
  }

  lemma SameSize<T>(a: set<T>, b: set<T>)
    requires a <= b && |a| == |b|
    ensures a == b
  {
    assert b == a + (b - a);
  }

  /** The elements of a list. */
  function Elements<T(!new, ==)>(xs: seq<T>): (r: set<T>)
    ensures forall x :: x in r <==> x in xs
  {
    set x | x in xs
  }

  /** The elements of a set, in some order. */
  method AsList<T(!new, ==)>(s: set<T>) returns (r: seq<T>)
    ensures Distinct(r) && forall x :: x in r <==> x in s
  {
    r := [];
    var todo := s;
    while todo != {}
      invariant todo <= s && Distinct(r) && forall x :: x in r <==> x in s - todo
    {
      var x :| x in todo;
      DistinctAppend(r, x);
      r, todo := r + [x], todo - {x};
    }
  }
}

/** Python's string methods, on ASCII. */
module Text {
  predicate IsSpace(c: char) {
    9 <= c as int <= 13 || 28 <= c as int <= 32
  }

  /** `str.strip()` */
  function Strip(s: string): string {
    if s != "" && IsSpace(s[0]) then Strip(s[1..])
    else if s != "" && IsSpace(s[|s| - 1]) then Strip(s[..|s| - 1])
    else s
  }

  predicate AllSpace(s: string) {
    forall i :: 0 <= i < |s| ==> IsSpace(s[i])
  }

  /** No space on either side. */
  predicate Trim(s: string) {
    s != "" ==> !IsSpace(s[0]) && !IsSpace(s[|s| - 1])
  }

  /** `r` is `s` without some space on either side. */
  ghost predicate Inside(s: string, r: string) {
    exists before, after :: Splits(s, before, r, after)
  }

  predicate Splits(s: string, before: string, r: string, after: string) {
    s == before + r + after && AllSpace(before) && AllSpace(after)
  }

  lemma InsideLeft(c: char, s: string, r: string)
    requires IsSpace(c) && Inside(s, r)
    ensures Inside([c] + s, r)
  {
    var before, after :| Splits(s, before, r, after);
    assert Splits([c] + s, [c] + before, r, after);
  }

  lemma InsideRight(c: char, s: string, r: string)
    requires IsSpace(c) && Inside(s, r)
    ensures Inside(s + [c], r)
  {
    var before, after :| Splits(s, before, r, after);
    assert Splits(s + [c], before, r, after + [c]);
  }

  /** What is stripped is space on either side, and all of it. */
  lemma {:induction false} StripExactly(s: string)
    ensures Inside(s, Strip(s)) && Trim(Strip(s))
    decreases |s|
  {
    if s != "" && IsSpace(s[0]) {
      StripExactly(s[1..]);
      InsideLeft(s[0], s[1..], Strip(s[1..]));
      assert s == [s[0]] + s[1..];
    } else if s != "" && IsSpace(s[|s| - 1]) {
      var n := |s| - 1;
      StripExactly(s[..n]);
      InsideRight(s[n], s[..n], Strip(s[..n]));
      assert s == s[..n] + [s[n]];
    } else {
      assert Splits(s, "", s, "");
    }
  }

  lemma StripAgain(s: string)
    ensures Strip(Strip(s)) == Strip(s)
  {
    StripExactly(s);
  }

  /** `str.lower()` */
  function Lower(s: string): string {
    if s == "" then "" else [if 'A' <= s[0] <= 'Z' then s[0] - 'A' + 'a' else s[0]] + Lower(s[1..])
  }

  lemma {:induction false} LowerExactly(s: string, i: nat)
    ensures |Lower(s)| == |s|
    ensures i < |s| ==> if 'A' <= s[i] <= 'Z' then Lower(s)[i] as int == s[i] as int + 32 else Lower(s)[i] == s[i]
  {
    if s != "" {
      LowerExactly(s[1..], if i > 0 then i - 1 else 0);
    }
  }
}

/** Python's `sorted`, on lists without duplicates. */
module Sorting {
  ghost predicate Distinct<T(!new)>(xs: seq<T>) {
    forall a, b :: 0 <= a < b < |xs| ==> xs[a] != xs[b]
  }

  ghost predicate TotalOrder<T(!new)>(le: (T, T) -> bool) {
    && (forall a, b :: le(a, b) || le(b, a))
    && (forall a, b, c :: le(a, b) && le(b, c) ==> le(a, c))
  }

  ghost predicate Ascending<T(!new)>(xs: seq<T>, le: (T, T) -> bool) {
    forall a, b :: 0 <= a < b < |xs| ==> le(xs[a], xs[b])
  }

  /** Sorted, and exactly the elements of `xs`. */
  ghost predicate IsSortOf<T(!new)>(ys: seq<T>, xs: seq<T>, le: (T, T) -> bool) {
    Ascending(ys, le) && Distinct(ys) && |ys| == |xs| && forall x :: x in ys <==> x in xs
  }

  lemma DistinctAppend<T(!new)>(xs: seq<T>, x: T)
    requires Distinct(xs) && x !in xs
    ensures Distinct(xs + [x]) && forall y :: y in xs + [x] <==> y in xs || y == x
  {
    forall a | 0 <= a < |xs| ensures xs[a] != x {
      assert xs[a] in xs;
    }
  }

  lemma InsertKeeps<T(!new)>(x: T, ys: seq<T>, k: nat, le: (T, T) -> bool)
    requires TotalOrder(le) && Ascending(ys, le) && Distinct(ys) && x !in ys && k <= |ys|
    requires (forall a :: 0 <= a < k ==> le(ys[a], x)) && (forall a :: k <= a < |ys| ==> le(x, ys[a]))
    ensures Ascending(ys[..k] + [x] + ys[k..], le) && Distinct(ys[..k] + [x] + ys[k..])
    ensures forall y :: y in ys[..k] + [x] + ys[k..] <==> y == x || y in ys
  {
    var zs := ys[..k] + [x] + ys[k..];
    forall a | 0 <= a < |ys| ensures ys[a] != x {
      assert ys[a] in ys;
    }
    forall y ensures y in zs <==> y == x || y in ys {
      assert ys == ys[..k] + ys[k..];
    }
  }

  method Insert<T(!new)>(x: T, ys: seq<T>, le: (T, T) -> bool) returns (zs: seq<T>)
    requires TotalOrder(le) && Ascending(ys, le) && Distinct(ys) && x !in ys
    ensures Ascending(zs, le) && Distinct(zs) && |zs| == |ys| + 1
    ensures forall y :: y in zs <==> y == x || y in ys
  {
    var k := 0;
    while k < |ys| && le(ys[k], x)
      invariant k <= |ys| && forall a :: 0 <= a < k ==> le(ys[a], x)
    {
      k := k + 1;
    }
    forall a | k <= a < |ys| ensures le(x, ys[a]) {
      assert le(x, ys[k]);
    }
    InsertKeeps(x, ys, k, le);
    zs := ys[..k] + [x] + ys[k..];
  }

  method Sorted<T(!new)>(xs: seq<T>, le: (T, T) -> bool) returns (ys: seq<T>)
    requires TotalOrder(le) && Distinct(xs)
    ensures IsSortOf(ys, xs, le)
  {
    ys := [];
    for i := 0 to |xs|
      invariant IsSortOf(ys, xs[..i], le)
    {
      assert xs[i] !in xs[..i];
      ys := Insert(xs[i], ys, le);
      assert xs[..i + 1] == xs[..i] + [xs[i]];
    }
    assert xs[..|xs|] == xs;
  }
}
