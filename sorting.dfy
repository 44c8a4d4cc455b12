/** Ordering query results by a timestamp, newest first: what
    `.sort('-updatedAt')` and `.sort('-createdAt')` ask of the document store. */
module Sorting {

  /** Non-increasing by `key`. */
  ghost predicate SortedDesc<T>(s: seq<T>, key: T -> nat) {
    forall i, j | 0 <= i < j < |s| :: key(s[i]) >= key(s[j])
  }

  /** Inserts `x` before the first element whose key is not larger. */
  function InsertDesc<T>(x: T, s: seq<T>, key: T -> nat): (r: seq<T>)
    requires SortedDesc(s, key)
    ensures SortedDesc(r, key)
    ensures multiset(r) == multiset(s) + multiset{x}
    ensures |r| == |s| + 1
    ensures forall i | 0 <= i < |r| :: key(r[i]) <= key(x) || (s != [] && key(r[i]) <= key(s[0]))
  {
    if s == [] then [x]
    else if key(x) >= key(s[0]) then
      SortedCons(x, s, key);
      [x] + s
    else
      var rest := InsertDesc(x, s[1..], key);
      InsertBehind(x, s, key, rest);
      [s[0]] + rest
  }

  /** The recursive step of `InsertDesc`: the head stays in front of the
      tail with `x` inserted. */
  lemma InsertBehind<T>(x: T, s: seq<T>, key: T -> nat, rest: seq<T>)
    requires s != [] && SortedDesc(s, key) && key(x) < key(s[0])
    requires SortedDesc(rest, key) && multiset(rest) == multiset(s[1..]) + multiset{x}
    requires forall i | 0 <= i < |rest| :: key(rest[i]) <= key(x) || (s[1..] != [] && key(rest[i]) <= key(s[1..][0]))
    ensures SortedDesc([s[0]] + rest, key)
    ensures multiset([s[0]] + rest) == multiset(s) + multiset{x}
    ensures forall i | 0 <= i < |[s[0]] + rest| :: key(([s[0]] + rest)[i]) <= key(s[0])
  {
    forall i | 0 <= i < |rest| ensures key(rest[i]) <= key(s[0]) {
      if s[1..] != [] {
        assert s[1..][0] == s[1];
      }
    }
    SortedCons(s[0], rest, key);
    assert s == [s[0]] + s[1..];
  }

  lemma SortedCons<T>(h: T, t: seq<T>, key: T -> nat)
    requires SortedDesc(t, key)
    requires forall i | 0 <= i < |t| :: key(t[i]) <= key(h)
    ensures SortedDesc([h] + t, key)
  {
    var r := [h] + t;
    forall i, j | 0 <= i < j < |r| ensures key(r[i]) >= key(r[j]) {
      assert r[j] == t[j - 1];
      if i > 0 {
        assert r[i] == t[i - 1];
      }
    }
  }

  /** The elements of `s`, newest first. */
  function SortDesc<T>(s: seq<T>, key: T -> nat): (r: seq<T>)
    ensures SortedDesc(r, key)
    ensures multiset(r) == multiset(s)
    ensures |r| == |s|
  {
    if s == [] then []
    else
      assert s == [s[0]] + s[1..];
      InsertDesc(s[0], SortDesc(s[1..], key), key)
  }
}
