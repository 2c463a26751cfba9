/** Small datatypes and finite-collection facts shared by the other modules. */
module Basics {

  datatype Option<+T> = None | Some(value: T)

  datatype Result<+T, +E> = Ok(value: T) | Err(error: E)

  /** The result of an operation that returns nothing but may fail. */
  datatype Outcome<+E> = Done | Failed(error: E)

  type Bytes = seq<bv8>

  const UINT32_SPAN: nat := 0x1_0000_0000

  type UInt32 = n: nat | n < UINT32_SPAN

  /** The sum of two 32-bit numbers, wrapping at the end of the range. */
  function Add32(a: UInt32, b: UInt32): UInt32 { if a + b < UINT32_SPAN then a + b else a + b - UINT32_SPAN }

  /** The numbers from `lo` up to but not including `hi`. */
  function Range(lo: nat, hi: nat): (s: set<nat>)
    requires lo <= hi
    ensures forall x :: x in s <==> lo <= x < hi
    ensures |s| == hi - lo
    decreases hi - lo
  {
    if lo == hi then {} else Range(lo, hi - 1) + {hi - 1}
  }

  function Min(a: nat, b: nat): nat { if a <= b then a else b }

  ghost predicate StrictlyAscending(s: seq<nat>) {
    forall i, j :: 0 <= i < j < |s| ==> s[i] < s[j]
  }

  /** The list `r` holds exactly the elements of `s`. */
  ghost predicate Lists<T>(r: seq<T>, s: set<T>) {
    (forall x :: x in r ==> x in s) && (forall x :: x in s ==> x in r)
  }

  /** The least element of a non-empty set. */
  ghost function Least(s: set<nat>): (m: nat)
    requires s != {}
    ensures m in s && forall x :: x in s ==> m <= x
    decreases |s|
  {
    var a :| a in s;
    var rest := s - {a};
    assert s == rest + {a};
    if rest == {} then a else Min(a, Least(rest))
  }

  /** The greatest element of a non-empty set. */
  ghost function Greatest(s: set<nat>): (m: nat)
    requires s != {}
    ensures m in s && forall x :: x in s ==> x <= m
    decreases |s|
  {
    var a :| a in s;
    var rest := s - {a};
    assert s == rest + {a};
    if rest == {} || Greatest(rest) <= a then a else Greatest(rest)
  }

  /** The elements of a set in increasing order. */
  ghost function Ascending(s: set<nat>): (r: seq<nat>)
    ensures |r| == |s|
    ensures StrictlyAscending(r)
    ensures Lists(r, s)
    decreases |s|
  {
    if s == {} then []
    else
      var m := Least(s);
      var rest := Ascending(s - {m});
      LeastFirst(s, m, rest);
      [m] + rest
  }

  lemma LeastFirst(s: set<nat>, m: nat, rest: seq<nat>)
    requires m in s && forall x :: x in s ==> m <= x
    requires StrictlyAscending(rest) && Lists(rest, s - {m})
    ensures StrictlyAscending([m] + rest) && Lists([m] + rest, s)
  {
    forall i | 0 <= i < |rest| ensures m < rest[i] { assert rest[i] in rest; }
    forall x | x in s ensures x in [m] + rest { assert x == m || x in rest; }
  }

  /** The list up to some point still ascends, and holds elements of the set only. */
  lemma PrefixAscends(r: seq<nat>, s: set<nat>, n: nat)
    requires StrictlyAscending(r) && Lists(r, s) && n <= |r|
    ensures StrictlyAscending(r[..n]) && forall i :: 0 <= i < n ==> r[..n][i] in s
  {
    forall i | 0 <= i < n ensures r[..n][i] in s { assert r[i] in r; }
  }

  /** The first `n` elements of a set are lower than the others. */
  lemma PrefixIsLowest(r: seq<nat>, s: set<nat>, n: nat)
    requires StrictlyAscending(r) && Lists(r, s) && n <= |r|
    ensures forall x :: x in s && x !in r[..n] ==> forall i :: 0 <= i < n ==> r[..n][i] < x
  {
    assert forall i :: 0 <= i < n ==> r[..n][i] == r[i] && r[i] in r[..n];
    forall x | x in s && x !in r[..n] ensures forall i :: 0 <= i < n ==> r[..n][i] < x {
      var j :| 0 <= j < |r| && r[j] == x;
    }
  }

  /** A strictly increasing list is determined by its elements. */
  lemma {:induction false} AscendingIsUnique(r: seq<nat>, s: set<nat>)
    requires StrictlyAscending(r)
    requires Lists(r, s)
    ensures r == Ascending(s)
    decreases |r|
  {
    if r == [] {
      assert s == {};
    } else {
      FirstIsLeast(r, s);
      RestLists(r, s);
      AscendingIsUnique(r[1..], s - {r[0]});
      AscendingUnfolds(s);
      assert r == [r[0]] + r[1..];
    }
  }

  lemma AscendingUnfolds(s: set<nat>)
    requires s != {}
    ensures Ascending(s) == [Least(s)] + Ascending(s - {Least(s)})
  {
  }

  lemma FirstIsLeast(r: seq<nat>, s: set<nat>)
    requires StrictlyAscending(r) && Lists(r, s) && r != []
    ensures s != {} && Least(s) == r[0]
  {
    assert r[0] in r;
    var i :| 0 <= i < |r| && r[i] == Least(s);
  }

  lemma RestLists(r: seq<nat>, s: set<nat>)
    requires StrictlyAscending(r) && Lists(r, s) && r != []
    ensures StrictlyAscending(r[1..]) && Lists(r[1..], s - {r[0]})
  {
    forall x | x in r[1..] ensures x in s - {r[0]} {
      var i :| 0 <= i < |r[1..]| && r[1..][i] == x;
      assert r[i + 1] == x && r[i + 1] in r;
    }
    forall x | x in s - {r[0]} ensures x in r[1..] {
      var i :| 0 <= i < |r| && r[i] == x;
      assert r[1..][i - 1] == x;
    }
  }

  /** Inserts one element into an increasing list. */
  function InsertAscending(x: UInt32, s: seq<UInt32>): (r: seq<UInt32>)
    requires StrictlyAscending(s)
    requires x !in s
    ensures StrictlyAscending(r)
    ensures forall y :: y in r <==> y == x || y in s
    ensures |r| == |s| + 1
  {
    if s == [] then [x]
    else if x < s[0] then [x] + s
    else
      var rest := InsertAscending(x, s[1..]);
      assert s == [s[0]] + s[1..];
      assert forall i :: 0 <= i < |rest| ==> rest[i] in rest;
      [s[0]] + rest
  }
}
