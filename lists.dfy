/**
 * The two LINQ list queries the services share: `FirstOrDefault(x => Key(x) == k)` and the
 * stable `OrderBy(x => Key(x))`.
 */
module Lists {
  import opened Wrappers

  /** `i` is the position of the first element of `s` whose key is `k`. */
  predicate IsFirstWithKey<T>(s: seq<T>, key: T -> string, k: string, i: int)
  {
    0 <= i < |s| && key(s[i]) == k && forall j :: 0 <= j < i ==> key(s[j]) != k
  }

  /** The position `FirstOrDefault(x => key(x) == k)` picks, or None when no element matches. */
  function FirstIndexOf<T>(s: seq<T>, key: T -> string, k: string): (r: Option<nat>)
    ensures r.Some? ==> IsFirstWithKey(s, key, k, r.value)
    ensures r.None? <==> forall j :: 0 <= j < |s| ==> key(s[j]) != k
  {
    if s == [] then None
    else if key(s[0]) == k then Some(0)
    else match FirstIndexOf(s[1..], key, k)
      case None => None
      case Some(i) => Some(i + 1)
  }

  /** `FirstOrDefault(x => key(x) == k)`: the first element whose key is `k`, or None. */
  function FirstWith<T>(s: seq<T>, key: T -> string, k: string): (r: Option<T>)
    ensures r.None? <==> forall i :: 0 <= i < |s| ==> key(s[i]) != k
    ensures r.Some? ==> exists i :: IsFirstWithKey(s, key, k, i) && r.value == s[i]
  {
    match FirstIndexOf(s, key, k)
    case None => None
    case Some(i) => Some(s[i])
  }

  /** There is only one first position. */
  lemma FirstWithKeyUnique<T>(s: seq<T>, key: T -> string, k: string, i: int, j: int)
    requires IsFirstWithKey(s, key, k, i) && IsFirstWithKey(s, key, k, j)
    ensures i == j
  {
  }

  /** Ascending order of keys. */
  predicate SortedBy<T>(s: seq<T>, key: T -> int)
  {
    forall i, j :: 0 <= i < j < |s| ==> key(s[i]) <= key(s[j])
  }

  /** The elements of `s` whose key is `k`, in their order in `s`. */
  function WithKey<T>(s: seq<T>, key: T -> int, k: int): seq<T>
  {
    if s == [] then []
    else WithKey(s[..|s| - 1], key, k) + if key(s[|s| - 1]) == k then [s[|s| - 1]] else []
  }

  /** Inserts `x` into sorted `t` after every element whose key is at most `x`'s. */
  function Insert<T>(x: T, t: seq<T>, key: T -> int): seq<T>
  {
    if t == [] || key(t[|t| - 1]) <= key(x) then t + [x]
    else Insert(x, t[..|t| - 1], key) + [t[|t| - 1]]
  }

  /**
   * The stable sort LINQ's `OrderBy` performs: sorted by key, a permutation of the input, and
   * the elements sharing a key keep their relative order.
   */
  function SortBy<T>(s: seq<T>, key: T -> int): (r: seq<T>)
    ensures SortedBy(r, key)
    ensures multiset(r) == multiset(s)
    ensures forall k :: WithKey(r, key, k) == WithKey(s, key, k)
  {
    if s == [] then []
    else
      var p := SortBy(s[..|s| - 1], key);
      var x := s[|s| - 1];
      InsertProperties(x, p, key);
      assert s == s[..|s| - 1] + [x];
      Insert(x, p, key)
  }

  lemma {:induction false} InsertPermutes<T>(x: T, t: seq<T>, key: T -> int)
    ensures multiset(Insert(x, t, key)) == multiset(t) + multiset{x}
  {
    if !(t == [] || key(t[|t| - 1]) <= key(x)) {
      InsertPermutes(x, t[..|t| - 1], key);
      assert t == t[..|t| - 1] + [t[|t| - 1]];
    }
  }

  lemma {:induction false} InsertSorted<T>(x: T, t: seq<T>, key: T -> int)
    requires SortedBy(t, key)
    ensures SortedBy(Insert(x, t, key), key)
  {
    if !(t == [] || key(t[|t| - 1]) <= key(x)) {
      var t', l := t[..|t| - 1], t[|t| - 1];
      InsertSorted(x, t', key);
      InsertPermutes(x, t', key);
      var r' := Insert(x, t', key);
      forall i | 0 <= i < |r'| ensures key(r'[i]) <= key(l) {
        assert r'[i] in multiset(r');
        if r'[i] != x {
          assert r'[i] in multiset(t');
          var m :| 0 <= m < |t'| && t'[m] == r'[i];
        }
      }
    }
  }

  lemma {:induction false} InsertKeepsRuns<T>(x: T, t: seq<T>, key: T -> int, k: int)
    ensures WithKey(Insert(x, t, key), key, k) == WithKey(t, key, k) + if key(x) == k then [x] else []
  {
    var r := Insert(x, t, key);
    if t == [] || key(t[|t| - 1]) <= key(x) {
      assert r[..|r| - 1] == t;
    } else {
      var t', l := t[..|t| - 1], t[|t| - 1];
      InsertKeepsRuns(x, t', key, k);
      assert r[..|r| - 1] == Insert(x, t', key);
    }
  }

  lemma InsertProperties<T>(x: T, t: seq<T>, key: T -> int)
    requires SortedBy(t, key)
    ensures SortedBy(Insert(x, t, key), key)
    ensures multiset(Insert(x, t, key)) == multiset(t) + multiset{x}
    ensures forall k :: WithKey(Insert(x, t, key), key, k)
                        == WithKey(t, key, k) + if key(x) == k then [x] else []
  {
    InsertSorted(x, t, key);
    InsertPermutes(x, t, key);
    forall k ensures WithKey(Insert(x, t, key), key, k)
                     == WithKey(t, key, k) + if key(x) == k then [x] else [] {
      InsertKeepsRuns(x, t, key, k);
    }
  }
}
