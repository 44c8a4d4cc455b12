/** The array operations the core applies to its tables and to the client's
    state: `filter`, `map` that replaces matching elements, and prepending. */
module Lists {
  import opened Wrappers

  /** `s.filter(p)`. */
  function Filter<T>(s: seq<T>, p: T -> bool): (r: seq<T>)
    ensures |r| <= |s|
    ensures forall i | 0 <= i < |r| :: p(r[i])
  {
    if s == [] then []
    else if p(s[0]) then [s[0]] + Filter(s[1..], p)
    else Filter(s[1..], p)
  }

  /** An element is kept exactly when it is in the list and satisfies `p`. */
  lemma {:induction false} FilterMember<T>(s: seq<T>, p: T -> bool, x: T)
    ensures x in Filter(s, p) <==> x in s && p(x)
  {
    if s != [] {
      FilterMember(s[1..], p, x);
      assert s == [s[0]] + s[1..];
    }
  }

  /** Filtering distributes over concatenation: the kept elements stay in
      their original order. */
  lemma {:induction false} FilterAppend<T>(a: seq<T>, b: seq<T>, p: T -> bool)
    ensures Filter(a + b, p) == Filter(a, p) + Filter(b, p)
  {
    if a != [] {
      assert (a + b)[1..] == a[1..] + b;
      FilterAppend(a[1..], b, p);
    } else {
      assert a + b == b;
    }
  }

  /** When every element is kept, filtering changes nothing. */
  lemma {:induction false} FilterKeepsAll<T>(s: seq<T>, p: T -> bool)
    requires forall i | 0 <= i < |s| :: p(s[i])
    ensures Filter(s, p) == s
  {
    if s != [] {
      FilterKeepsAll(s[1..], p);
    }
  }

  /** When no element is kept, filtering yields the empty list. */
  lemma {:induction false} FilterDropsAll<T>(s: seq<T>, p: T -> bool)
    requires forall i | 0 <= i < |s| :: !p(s[i])
    ensures Filter(s, p) == []
  {
    if s != [] {
      FilterDropsAll(s[1..], p);
    }
  }

  /** Filtering counts: an element occurs in the result as often as it
      occurs in the input when it is kept, and not at all otherwise. */
  lemma {:induction false} FilterMultiset<T>(s: seq<T>, p: T -> bool, x: T)
    ensures multiset(Filter(s, p))[x] == if p(x) then multiset(s)[x] else 0
  {
    if s != [] {
      FilterMultiset(s[1..], p, x);
      assert s == [s[0]] + s[1..];
    }
  }

  /** `s.filter(p)` on something already filtered by `p` changes nothing. */
  lemma FilterIdempotent<T>(s: seq<T>, p: T -> bool)
    ensures Filter(Filter(s, p), p) == Filter(s, p)
  {
    FilterKeepsAll(Filter(s, p), p);
  }

  /** Splitting a list by a predicate and its negation loses nothing. */
  lemma {:induction false} FilterPartition<T>(s: seq<T>, p: T -> bool)
    ensures |Filter(s, p)| + |Filter(s, x => !p(x))| == |s|
    ensures multiset(Filter(s, p)) + multiset(Filter(s, x => !p(x))) == multiset(s)
  {
    if s != [] {
      FilterPartition(s[1..], p);
      assert s == [s[0]] + s[1..];
    }
  }

  /** `s.map(x => p(x) ? v : x)`: the elements that satisfy `p` are replaced
      by `v`; the length and every other element stay as they were. */
  function ReplaceWhere<T>(s: seq<T>, p: T -> bool, v: T): (r: seq<T>)
    ensures |r| == |s|
    ensures forall i | 0 <= i < |s| :: p(s[i]) ==> r[i] == v
    ensures forall i | 0 <= i < |s| :: !p(s[i]) ==> r[i] == s[i]
  {
    if s == [] then []
    else [if p(s[0]) then v else s[0]] + ReplaceWhere(s[1..], p, v)
  }

  /** Replacing when nothing matches changes nothing. */
  lemma ReplaceWhereNoMatch<T>(s: seq<T>, p: T -> bool, v: T)
    requires forall i | 0 <= i < |s| :: !p(s[i])
    ensures ReplaceWhere(s, p, v) == s
  {
  }

  /** The position of the first element satisfying `p`, as `findIndex` or
      the document store's `findOne` in natural order. */
  function FirstWhere<T>(s: seq<T>, p: T -> bool): (r: Option<nat>)
    ensures r.Some? ==> r.value < |s| && p(s[r.value])
    ensures r.Some? ==> forall j | 0 <= j < r.value :: !p(s[j])
    ensures r.None? ==> forall j | 0 <= j < |s| :: !p(s[j])
  {
    if s == [] then None
    else if p(s[0]) then Some(0)
    else match FirstWhere(s[1..], p)
      case None => None
      case Some(i) => Some(i + 1)
  }

  /** Past a first element that does not match, the first match is one
      further along than in the rest. */
  lemma FirstWhereTail<T>(s: seq<T>, p: T -> bool)
    requires s != [] && !p(s[0])
    ensures FirstWhere(s, p).Some? <==> FirstWhere(s[1..], p).Some?
    ensures FirstWhere(s, p).Some? ==> FirstWhere(s, p).value == FirstWhere(s[1..], p).value + 1
  {
  }

  /** How the elements of `s` and of `[x] + t` line up with those of their
      tails. */
  lemma ConsIndex<T, U>(s: seq<T>, x: U, t: seq<U>)
    requires s != []
    ensures forall i | 1 <= i < |s| :: s[i] == s[1..][i - 1]
    ensures ([x] + t)[0] == x
    ensures forall i | 1 <= i < |t| + 1 :: ([x] + t)[i] == t[i - 1]
  {
  }

  /** No two elements share a key. */
  ghost predicate DistinctBy<T, K>(s: seq<T>, key: T -> K) {
    forall i, j | 0 <= i < j < |s| :: key(s[i]) != key(s[j])
  }

  /** Filtering keeps the keys distinct. */
  lemma {:induction false} FilterDistinct<T, K>(s: seq<T>, p: T -> bool, key: T -> K)
    requires DistinctBy(s, key)
    ensures DistinctBy(Filter(s, p), key)
  {
    if s != [] {
      FilterDistinct(s[1..], p, key);
      if p(s[0]) {
        var t := Filter(s[1..], p);
        forall j | 0 <= j < |t| ensures key(s[0]) != key(t[j]) {
          FilterMember(s[1..], p, t[j]);
          var k :| 0 <= k < |s[1..]| && s[1..][k] == t[j];
          assert s[k + 1] == t[j];
        }
        var r := [s[0]] + t;
        forall i, j | 0 <= i < j < |r| ensures key(r[i]) != key(r[j]) {
          assert r[j] == t[j - 1];
          if i > 0 {
            assert r[i] == t[i - 1];
          }
        }
      }
    }
  }

  /** Appending an element with a new key keeps the keys distinct. */
  lemma AppendDistinct<T, K>(s: seq<T>, x: T, key: T -> K)
    requires DistinctBy(s, key)
    requires forall i | 0 <= i < |s| :: key(s[i]) != key(x)
    ensures DistinctBy(s + [x], key)
  {
    var r := s + [x];
    forall i, j | 0 <= i < j < |r| ensures key(r[i]) != key(r[j]) {
      assert r[i] == s[i];
      if j < |s| {
        assert r[j] == s[j];
      }
    }
  }
}
