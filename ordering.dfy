/**
 * The row order that the queries `order_by('data')` produce.  A row is
 * referred to by a Key: its date (a day number) and its position in the
 * table, which is also its auto-increment id.  Dates alone do not order the
 * rows totally; ties are broken by position, one fixed order among the
 * orders a database may return for equal dates.
 */
module Ordering {

  datatype Key = Key(data: int, pos: nat)

  /** Strictly earlier in (date, position) order. */
  predicate Less(a: Key, b: Key) {
    a.data < b.data || (a.data == b.data && a.pos < b.pos)
  }

  predicate Sorted(s: seq<Key>) {
    forall i, j :: 0 <= i < j < |s| ==> Less(s[i], s[j])
  }

  predicate Distinct(s: seq<Key>) {
    forall i, j :: 0 <= i < j < |s| ==> s[i] != s[j]
  }

  /** No two keys of `s` name the same row. */
  predicate DistinctPos(s: seq<Key>) {
    forall i, j :: 0 <= i < j < |s| ==> s[i].pos != s[j].pos
  }

  /** The rows a sequence of keys refers to. */
  function Positions(s: seq<Key>): set<nat> {
    set k | k in s :: k.pos
  }

  /** The first `n` keys, as a query slice `[:n]` with `n >= 0` takes them. */
  function Take(s: seq<Key>, n: nat): (r: seq<Key>)
    ensures |r| == if n <= |s| then n else |s|
    ensures forall i :: 0 <= i < |r| ==> r[i] == s[i]
  {
    if n <= |s| then s[..n] else s
  }

  function Insert(k: Key, s: seq<Key>): (r: seq<Key>)
    requires Sorted(s) && k !in s
    ensures Sorted(r) && |r| == |s| + 1
    ensures forall x :: x in r <==> x in s || x == k
  {
    if s == [] then [k]
    else if Less(k, s[0]) then [k] + s
    else
      var rest := Insert(k, s[1..]);
      assert Less(s[0], k);
      assert forall x :: x in rest ==> Less(s[0], x);
      assert s == [s[0]] + s[1..];
      [s[0]] + rest
  }

  /**
   * Insertion sort into ascending (date, position) order.  The result holds
   * the same keys, each once: a permutation of the input.
   */
  function Sort(s: seq<Key>): (r: seq<Key>)
    requires Distinct(s)
    ensures Sorted(r) && |r| == |s|
    ensures forall x :: x in r <==> x in s
  {
    if s == [] then []
    else
      assert s == [s[0]] + s[1..];
      Insert(s[0], Sort(s[1..]))
  }

  lemma {:induction false} PositionsCard(s: seq<Key>)
    requires DistinctPos(s)
    ensures |Positions(s)| == |s|
  {
    if s != [] {
      var tail := s[1..];
      assert DistinctPos(tail) by {
        forall i, j | 0 <= i < j < |tail| ensures tail[i].pos != tail[j].pos {
          assert tail[i] == s[i + 1] && tail[j] == s[j + 1];
        }
      }
      PositionsCard(tail);
      assert Positions(s) == {s[0].pos} + Positions(tail) by {
        assert s == [s[0]] + tail;
      }
      assert forall j :: 0 <= j < |tail| ==> tail[j].pos != s[0].pos by {
        forall j | 0 <= j < |tail| ensures tail[j].pos != s[0].pos {
          assert tail[j] == s[j + 1];
        }
      }
    }
  }
}
