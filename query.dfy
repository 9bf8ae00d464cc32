/**
 * The part of a MongoDB query that the schemas' static helpers use: `find(filter)`,
 * `.sort({ field: -1 })` and `.limit(n)`, over the documents of a collection in their
 * natural (insertion) order.
 */
module Query {

  /** `find(filter)`: the documents satisfying `p`, in natural order. */
  function Where<T(!new)>(s: seq<T>, p: T -> bool): (r: seq<T>)
    ensures |r| <= |s|
    ensures forall x :: multiset(r)[x] == if p(x) then multiset(s)[x] else 0
  {
    if s == [] then []
    else
      var last := s[|s| - 1];
      assert s == s[..|s| - 1] + [last];
      Where(s[..|s| - 1], p) + (if p(last) then [last] else [])
  }

  /** Non-increasing in `key`: what `.sort({ key: -1 })` returns. */
  predicate SortedDesc<T>(s: seq<T>, key: T -> int)
  {
    forall i, j :: 0 <= i < j < |s| ==> key(s[i]) >= key(s[j])
  }

  /** Every element of a non-increasing sequence is at most its head. */
  lemma HeadIsLargest<T>(s: seq<T>, key: T -> int)
    requires SortedDesc(s, key) && s != []
    ensures forall y :: y in multiset(s) ==> key(y) <= key(s[0])
  {
    forall y | y in multiset(s) ensures key(y) <= key(s[0]) {
      var j :| 0 <= j < |s| && s[j] == y;
    }
  }

  /** Prepending an element at least as large as everything keeps a sequence non-increasing. */
  lemma PrependSorted<T>(h: T, s: seq<T>, key: T -> int)
    requires SortedDesc(s, key)
    requires forall y :: y in multiset(s) ==> key(y) <= key(h)
    ensures SortedDesc([h] + s, key)
  {
    forall j | 0 <= j < |s| ensures key(s[j]) <= key(h) {
      assert s[j] in multiset(s);
    }
  }

  /** Inserting `x`, no larger than the head, into the tail leaves everything below the head. */
  lemma TailInsertBelowHead<T>(x: T, s: seq<T>, rest: seq<T>, key: T -> int)
    requires SortedDesc(s, key) && s != [] && key(x) <= key(s[0])
    requires multiset(rest) == multiset(s[1..]) + multiset{x}
    ensures forall y :: y in multiset(rest) ==> key(y) <= key(s[0])
  {
    assert s == [s[0]] + s[1..];
    HeadIsLargest(s, key);
  }

  /** Places `x` among the already sorted `s`, after every element with an equal key. */
  function InsertDesc<T>(x: T, s: seq<T>, key: T -> int): (r: seq<T>)
    requires SortedDesc(s, key)
    ensures SortedDesc(r, key)
    ensures multiset(r) == multiset(s) + multiset{x}
    ensures |r| == |s| + 1
  {
    if s == [] then [x]
    else if key(s[0]) >= key(x) then
      var rest := InsertDesc(x, s[1..], key);
      assert s == [s[0]] + s[1..];
      TailInsertBelowHead(x, s, rest, key);
      PrependSorted(s[0], rest, key);
      [s[0]] + rest
    else
      HeadIsLargest(s, key);
      PrependSorted(x, s, key);
      [x] + s
  }

  /** `.sort({ key: -1 })`: a permutation of `s` in non-increasing `key` order. Documents with
      equal keys keep their natural order here; MongoDB leaves their order unspecified. */
  function SortDesc<T>(s: seq<T>, key: T -> int): (r: seq<T>)
    ensures SortedDesc(r, key)
    ensures multiset(r) == multiset(s)
    ensures |r| == |s|
  {
    if s == [] then []
    else
      assert s == [s[0]] + s[1..];
      InsertDesc(s[0], SortDesc(s[1..], key), key)
  }

  /** How many documents `.limit(n)` lets through: 0 means no limit, and a negative limit
      behaves like its absolute value. */
  function LimitCount(n: int, available: nat): (k: nat)
    ensures k <= available
    ensures n != 0 ==> k <= (if n < 0 then -n else n)
    ensures n != 0 ==> k == available || k == (if n < 0 then -n else n)
    ensures n == 0 ==> k == available
  {
    var m := if n < 0 then -n else n;
    if n == 0 || available < m then available else m
  }

  /** `.sort({ key: -1 }).limit(n)`: the first documents of the sorted order. */
  function TopByKey<T>(s: seq<T>, key: T -> int, n: int): (r: seq<T>)
    ensures |r| == LimitCount(n, |s|)
    ensures SortedDesc(r, key)
    ensures multiset(r) <= multiset(s)
  {
    var sorted := SortDesc(s, key);
    var r := sorted[..LimitCount(n, |s|)];
    assert sorted == r + sorted[|r|..];
    r
  }

  /** What `.sort().limit()` keeps is the most recent: no document it leaves out has a larger
      key than any it returns. */
  lemma TopByKeyKeepsLargest<T>(s: seq<T>, key: T -> int, n: int)
    ensures var r := TopByKey(s, key, n);
      forall x, y :: x in r && y in multiset(s) - multiset(r) ==> key(y) <= key(x)
  {
    var sorted := SortDesc(s, key);
    var k := LimitCount(n, |s|);
    var r := sorted[..k];
    var rest := sorted[k..];
    assert sorted == r + rest;
    assert multiset(s) - multiset(r) == multiset(rest);
    forall x, y | x in r && y in multiset(rest) ensures key(y) <= key(x) {
      var i :| 0 <= i < |r| && r[i] == x;
      var j :| 0 <= j < |rest| && rest[j] == y;
      assert sorted[i] == x && sorted[k + j] == y;
    }
  }
}
