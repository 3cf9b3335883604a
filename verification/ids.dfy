/** Primary-key allocation and key ordering for the three tables.

    Every table is declared with an integer primary key, which SQLite stores as
    the row id. When an insert supplies no id, SQLite gives the new row one more
    than the largest id currently in the table, or 1 when the table is empty;
    listing a table without an ORDER BY walks it by ascending id. */
module Ids {

  /** A set other than the empty one has an element. */
  lemma HasElement(s: set<int>)
    requires s != {}
    ensures exists y :: y in s
  {
    if forall y :: y !in s {
      assert false;
    }
  }

  /** `m` is the largest element of `s`. */
  predicate IsLargest(m: int, s: set<int>)
  {
    m in s && forall x :: x in s ==> x <= m
  }

  /** Every non-empty finite set of integers has a largest element. */
  lemma {:induction false} HasLargest(s: set<int>)
    requires s != {}
    ensures exists m :: IsLargest(m, s)
    decreases s
  {
    HasElement(s);
    var y :| y in s;
    var rest := s - {y};
    assert forall x :: x in s ==> x == y || x in rest;
    if rest == {} {
      assert IsLargest(y, s);
    } else {
      HasLargest(rest);
      var m :| IsLargest(m, rest);
      if y <= m {
        assert IsLargest(m, s);
      } else {
        assert IsLargest(y, s);
      }
    }
  }

  /** The largest element of a non-empty set. */
  function Largest(s: set<int>): (m: int)
    requires s != {}
    ensures m in s
    ensures forall x :: x in s ==> x <= m
  {
    HasLargest(s);
    var m :| IsLargest(m, s);
    m
  }

  /** The id SQLite gives a row inserted into a table whose ids are `used`. */
  function NextId(used: set<int>): (id: int)
    ensures id !in used
    ensures forall x :: x in used ==> x < id
    ensures used == {} ==> id == 1
    ensures used != {} ==> id - 1 in used
  {
    if used == {} then 1 else Largest(used) + 1
  }

  /** The elements of `s`, each once, in strictly ascending order. */
  function Ascending(s: set<int>): (r: seq<int>)
    ensures |r| == |s|
    ensures forall x :: x in r <==> x in s
    ensures forall i, j :: 0 <= i < j < |r| ==> r[i] < r[j]
    decreases s
  {
    if s == {} then []
    else
      var m := Largest(s);
      var below := Ascending(s - {m});
      LargestGoesLast(s, m, below);
      below + [m]
  }

  /** Listing the rest of `s` in ascending order and then its largest element
      lists all of `s` in ascending order. */
  lemma LargestGoesLast(s: set<int>, m: int, below: seq<int>)
    requires m in s && forall x :: x in s ==> x <= m
    requires |below| == |s - {m}|
    requires forall x :: x in below <==> x in s - {m}
    requires forall i, j :: 0 <= i < j < |below| ==> below[i] < below[j]
    ensures |below + [m]| == |s|
    ensures forall x :: x in below + [m] <==> x in s
    ensures forall i, j :: 0 <= i < j < |below + [m]| ==> (below + [m])[i] < (below + [m])[j]
  {
    assert |s - {m}| == |s| - 1;
    var r := below + [m];
    assert forall x :: x in r <==> x in below || x == m;
    forall i, j | 0 <= i < j < |r|
      ensures r[i] < r[j]
    {
      assert r[i] == below[i];
      assert below[i] in below;
      if j < |below| {
        assert r[j] == below[j];
      }
    }
  }

  /** Views keyed, position by position, by the ascending listing of `s` list
      every element of `s` exactly once, in ascending order of key. */
  lemma ListedInOrder<V>(s: set<int>, views: seq<V>, key: V -> int)
    requires |views| == |Ascending(s)|
    requires forall k :: 0 <= k < |views| ==> key(views[k]) == Ascending(s)[k]
    ensures |views| == |s|
    ensures forall k :: 0 <= k < |views| ==> key(views[k]) in s
    ensures forall x :: x in s ==> exists k :: 0 <= k < |views| && key(views[k]) == x
    ensures forall j, k :: 0 <= j < k < |views| ==> key(views[j]) < key(views[k])
  {
    var ids := Ascending(s);
    assert forall k :: 0 <= k < |ids| ==> ids[k] in ids;
    forall x | x in s
      ensures exists k :: 0 <= k < |views| && key(views[k]) == x
    {
      assert x in ids;
      var k :| 0 <= k < |ids| && ids[k] == x;
      assert key(views[k]) == x;
    }
  }
}
