/**
 * The pieces of SQL semantics the reporting queries rely on: the SUM and MIN
 * aggregates (NULL over no rows) and the keys that GROUP BY a date followed
 * by ORDER BY that date produces.
 */
module Sql {
  import opened Wrappers
  import opened Dates

  function Sum(xs: seq<int>): int {
    if xs == [] then 0 else xs[0] + Sum(xs[1..])
  }

  /** SQL SUM: NULL over no rows, the total otherwise. */
  function SqlSum(xs: seq<int>): (r: Option<int>)
    ensures r.None? <==> xs == []
  {
    if xs == [] then None else Some(Sum(xs))
  }

  /** SQL MIN: NULL over no rows, otherwise a value of the group that no value undercuts. */
  function SqlMin(xs: seq<int>): (r: Option<int>)
    ensures r.None? <==> xs == []
    ensures r.Some? ==> r.value in xs && forall x :: x in xs ==> r.value <= x
  {
    if xs == [] then None
    else
      assert xs == [xs[0]] + xs[1..];
      match SqlMin(xs[1..])
      case None => Some(xs[0])
      case Some(m) => Some(if xs[0] <= m then xs[0] else m)
  }

  /** Dates in increasing order without repetition, as ORDER BY over GROUP BY keys yields them. */
  predicate StrictlyAscending(s: seq<Date>) {
    forall i, j :: 0 <= i < j < |s| ==> Before(s[i], s[j])
  }

  /** In a strictly ascending sequence, the order of dates is the order of positions. */
  lemma AscendingPositions(s: seq<Date>, i: int, j: int)
    requires StrictlyAscending(s)
    requires 0 <= i < |s| && 0 <= j < |s|
    ensures Before(s[i], s[j]) <==> i < j
  {
    if j < i {
      BeforeIsTotal(s[j], s[i]);
    }
  }

  /** Adds one key to the ordered, duplicate-free key list. */
  function InsertKey(d: Date, s: seq<Date>): (r: seq<Date>)
    requires StrictlyAscending(s)
    ensures StrictlyAscending(r)
    ensures forall x :: x in r <==> x == d || x in s
    ensures |r| <= |s| + 1
  {
    if s == [] then [d]
    else if d == s[0] then s
    else if Before(d, s[0]) then [d] + s
    else
      BeforeIsTotal(d, s[0]);
      var rest := InsertKey(d, s[1..]);
      assert forall x :: x in rest ==> Before(s[0], x);
      [s[0]] + rest
  }

  /** GROUP BY date ORDER BY date: each date of the input once, in increasing order. */
  function GroupKeys(ds: seq<Date>): (r: seq<Date>)
    ensures StrictlyAscending(r)
    ensures forall x :: x in r <==> x in ds
    ensures |r| <= |ds|
  {
    if ds == [] then [] else InsertKey(ds[0], GroupKeys(ds[1..]))
  }

  lemma NoElementsEmpty(s: seq<Date>)
    ensures (forall x :: x !in s) ==> s == []
  {
    if s != [] {
      assert s[0] in s;
    }
  }

  /** An ordered, duplicate-free list is determined by its elements. */
  lemma {:induction false} AscendingUnique(s: seq<Date>, t: seq<Date>)
    requires StrictlyAscending(s) && StrictlyAscending(t)
    requires forall x :: x in s <==> x in t
    ensures s == t
    decreases |s|
  {
    if s == [] || t == [] {
      NoElementsEmpty(s);
      NoElementsEmpty(t);
    } else {
      assert s[0] in t;
      assert t[0] in s;
      var i :| 0 <= i < |t| && t[i] == s[0];
      var j :| 0 <= j < |s| && s[j] == t[0];
      AscendingPositions(t, 0, i);
      AscendingPositions(s, 0, j);
      BeforeIsTotal(s[0], t[0]);
      assert s[0] == t[0];
      forall x
        ensures x in s[1..] <==> x in t[1..]
      {
        if x in s[1..] {
          var k :| 1 <= k < |s| && s[k] == x;
          assert Before(s[0], s[k]);
          assert x in t && x != t[0];
        }
        if x in t[1..] {
          var k :| 1 <= k < |t| && t[k] == x;
          assert Before(t[0], t[k]);
          assert x in s && x != s[0];
        }
      }
      AscendingUnique(s[1..], t[1..]);
      assert s == [s[0]] + s[1..];
      assert t == [t[0]] + t[1..];
    }
  }

  /** The keys depend only on which dates occur, not on their order or multiplicity. */
  lemma GroupKeysBySet(ds: seq<Date>, es: seq<Date>)
    requires forall x :: x in ds <==> x in es
    ensures GroupKeys(ds) == GroupKeys(es)
  {
    AscendingUnique(GroupKeys(ds), GroupKeys(es));
  }
}
