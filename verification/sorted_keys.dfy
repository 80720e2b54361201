/**
 Ordered iteration over the keys of a finite map of prices.

 A `BTreeMap<Decimal, Decimal>` yields its entries in ascending key order;
 this module gives that order a name: `Ascending(s)` is the strictly
 increasing sequence listing exactly the elements of the finite set `s`.
 */
module SortedKeys {

  /** Every element of `s` is strictly smaller than every later one. */
  predicate StrictlyAscending(s: seq<real>) {
    forall i, j :: 0 <= i < j < |s| ==> s[i] < s[j]
  }

  /** Every element of `s` is strictly greater than every later one. */
  predicate StrictlyDescending(s: seq<real>) {
    forall i, j :: 0 <= i < j < |s| ==> s[i] > s[j]
  }

  /** The set of elements of a sequence. */
  function Elems(s: seq<real>): set<real> {
    set x | x in s
  }

  function Min(a: int, b: int): int {
    if a <= b then a else b
  }

  /** A set other than the empty one has an element. */
  lemma NonEmptyHasElement(s: set<real>)
    requires s != {}
    ensures exists y :: y in s
  {
    if forall y :: y !in s {
      assert false;
    }
  }

  /** A finite non-empty set of reals has a least element. */
  lemma MinExists(s: set<real>)
    requires s != {}
    ensures exists m :: m in s && forall x :: x in s ==> m <= x
  {
    var m := LeastElement(s);
  }

  /** Finds the least element of a finite non-empty set by induction on its size. */
  lemma {:induction false} LeastElement(s: set<real>) returns (m: real)
    requires s != {}
    ensures m in s
    ensures forall x :: x in s ==> m <= x
    decreases |s|
  {
    NonEmptyHasElement(s);
    var y :| y in s;
    var rest := s - {y};
    if rest == {} {
      m := y;
      BoundWithoutOne(s, y, y);
    } else {
      var low := LeastElement(rest);
      m := if y < low then y else low;
      BoundWithoutOne(s, y, m);
    }
  }

  /** A lower bound of all of `s` but `y` that is also below `y` bounds all of `s`. */
  lemma BoundWithoutOne(s: set<real>, y: real, m: real)
    requires m <= y
    requires forall x :: x in s - {y} ==> m <= x
    ensures forall x :: x in s ==> m <= x
  {
    forall x | x in s
      ensures m <= x
    {
      if x != y { assert x in s - {y}; }
    }
  }

  /** The least element of a finite non-empty set. */
  function MinOf(s: set<real>): (m: real)
    requires s != {}
    ensures m in s
    ensures forall x :: x in s ==> m <= x
  {
    MinExists(s);
    var m :| m in s && forall x :: x in s ==> m <= x;
    m
  }

  /** The elements of `s` in ascending order, as a `BTreeMap` iterates its keys. */
  function Ascending(s: set<real>): (r: seq<real>)
    ensures StrictlyAscending(r)
    ensures |r| == |s|
    ensures forall x :: x in r <==> x in s
    decreases |s|
  {
    if s == {} then []
    else
      var m := MinOf(s);
      [m] + Ascending(s - {m})
  }

  /** The sequence read back to front, as `Iterator::rev` yields it. */
  function Reverse(s: seq<real>): seq<real> {
    seq(|s|, i requires 0 <= i < |s| => s[|s| - 1 - i])
  }

  /** Reading an ascending sequence backwards gives a descending one with the same elements. */
  lemma ReverseOfAscending(s: seq<real>)
    requires StrictlyAscending(s)
    ensures StrictlyDescending(Reverse(s))
    ensures forall x :: x in Reverse(s) <==> x in s
  {
    var r := Reverse(s);
    forall x | x in s
      ensures x in r
    {
      var j :| 0 <= j < |s| && s[j] == x;
      assert r[|s| - 1 - j] == x;
    }
  }

  /** The elements of `s` in descending order: the ascending listing read backwards. */
  function Descending(s: set<real>): (r: seq<real>)
    ensures StrictlyDescending(r)
    ensures |r| == |s|
    ensures forall x :: x in r <==> x in s
  {
    var a := Ascending(s);
    ReverseOfAscending(a);
    Reverse(a)
  }

  /** In a strictly descending sequence, a greater-or-equal entry sits no later. */
  lemma IndexOrderDescending(s: seq<real>, a: int, b: int)
    requires StrictlyDescending(s)
    requires 0 <= a < |s| && 0 <= b < |s|
    requires s[a] >= s[b]
    ensures a <= b
  {
  }

  /** In a strictly ascending sequence, a smaller-or-equal entry sits no later. */
  lemma IndexOrder(s: seq<real>, a: int, b: int)
    requires StrictlyAscending(s)
    requires 0 <= a < |s| && 0 <= b < |s|
    requires s[a] <= s[b]
    ensures a <= b
  {
  }

  /** A strictly ascending sequence has as many distinct elements as it is long. */
  lemma {:induction false} ElemsOfAscending(s: seq<real>)
    requires StrictlyAscending(s)
    ensures |Elems(s)| == |s|
  {
    if |s| > 0 {
      var t := s[1..];
      ElemsOfAscending(t);
      assert Elems(s) == {s[0]} + Elems(t);
      assert s[0] !in Elems(t);
    }
  }

  /**
   In a strictly ascending listing of `s`, the elements below `s[i]` are
   exactly the first `i` entries.
   */
  lemma BelowIsPrefix(s: seq<real>, i: int, x: real)
    requires StrictlyAscending(s)
    requires 0 <= i < |s|
    ensures x in s && x < s[i] <==> x in s[..i]
  {
    if x in s && x < s[i] {
      var j :| 0 <= j < |s| && s[j] == x;
      assert j < i;
      assert s[..i][j] == x;
    }
    if x in s[..i] {
      var j :| 0 <= j < i && s[..i][j] == x;
      assert s[j] == x;
    }
  }
}
