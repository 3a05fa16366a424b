/** Sorting by a key that keeps equal elements in their order. */
module StableSort {
  import opened Selection

  function Insert<T>(key: T -> int, x: T, s: seq<T>): seq<T> {
    if s == [] || key(x) <= key(s[0]) then [x] + s else [s[0]] + Insert(key, x, s[1..])
  }

  function Sort<T>(key: T -> int, s: seq<T>): seq<T> {
    if s == [] then [] else Insert(key, s[0], Sort(key, s[1..]))
  }

  ghost predicate Sorted<T>(key: T -> int, s: seq<T>) {
    forall i, j :: 0 <= i < j < |s| ==> key(s[i]) <= key(s[j])
  }

  lemma {:induction false} InsertKeeps<T>(key: T -> int, x: T, s: seq<T>)
    ensures multiset(Insert(key, x, s)) == multiset{x} + multiset(s)
  {
    if s != [] && key(x) > key(s[0]) {
      assert s == [s[0]] + s[1..];
      InsertKeeps(key, x, s[1..]);
    }
  }

  lemma {:induction false} InsertSorts<T>(key: T -> int, x: T, s: seq<T>)
    requires Sorted(key, s)
    ensures Sorted(key, Insert(key, x, s))
    ensures forall i :: 0 <= i < |Insert(key, x, s)| ==>
            key(Insert(key, x, s)[i]) >= key(x) || (s != [] && key(Insert(key, x, s)[i]) >= key(s[0]))
  {
    if s != [] && key(x) > key(s[0]) {
      InsertSorts(key, x, s[1..]);
      var rest := Insert(key, x, s[1..]);
      assert forall i :: 0 <= i < |rest| ==> key(s[0]) <= key(rest[i]);
    }
  }

  /** The result is sorted and is a permutation of the input. */
  lemma {:induction false} SortSorts<T>(key: T -> int, s: seq<T>)
    ensures Sorted(key, Sort(key, s)) && multiset(Sort(key, s)) == multiset(s)
  {
    if s != [] {
      SortSorts(key, s[1..]);
      InsertSorts(key, s[0], Sort(key, s[1..]));
      InsertKeeps(key, s[0], Sort(key, s[1..]));
      assert s == [s[0]] + s[1..];
    }
  }

  lemma {:induction false} FilterInsert<T>(key: T -> int, p: T -> bool, x: T, s: seq<T>)
    requires Sorted(key, s)
    ensures Filter(p, Insert(key, x, s)) == if p(x) then Insert(key, x, Filter(p, s)) else Filter(p, s)
  {
    if s == [] || key(x) <= key(s[0]) {
      assert ([x] + s)[1..] == s && [] + Filter(p, s) == Filter(p, s);
      if p(x) {
        FilterLower(key, p, x, s);
      }
    } else {
      var rest := Insert(key, x, s[1..]);
      assert ([s[0]] + rest)[1..] == rest;
      FilterInsert(key, p, x, s[1..]);
      assert ([s[0]] + Filter(p, s[1..]))[1..] == Filter(p, s[1..]);
      assert [] + Filter(p, s[1..]) == Filter(p, s[1..]);
    }
  }

  lemma {:induction false} FilterLower<T>(key: T -> int, p: T -> bool, x: T, s: seq<T>)
    requires forall i :: 0 <= i < |s| ==> key(x) <= key(s[i])
    ensures Insert(key, x, Filter(p, s)) == [x] + Filter(p, s)
  {
    if s != [] && !p(s[0]) {
      FilterLower(key, p, x, s[1..]);
      assert [] + Filter(p, s[1..]) == Filter(p, s[1..]);
    }
  }

  /** Stability: sorting and then selecting is selecting and then sorting. */
  lemma {:induction false} SortIsStable<T>(key: T -> int, p: T -> bool, s: seq<T>)
    ensures Filter(p, Sort(key, s)) == Sort(key, Filter(p, s))
  {
    if s != [] {
      SortIsStable(key, p, s[1..]);
      SortSorts(key, s[1..]);
      FilterInsert(key, p, s[0], Sort(key, s[1..]));
      assert ([s[0]] + Filter(p, s[1..]))[1..] == Filter(p, s[1..]);
      assert [] + Filter(p, s[1..]) == Filter(p, s[1..]);
    }
  }

  function Among<T>(key: T -> int, k: int): T -> bool { (x: T) => key(x) == k }

  /** Ties keep their order: the elements of one key are where they were among themselves. */
  lemma TiesKeepOrder<T>(key: T -> int, k: int, s: seq<T>)
    ensures Filter(Among(key, k), Sort(key, s)) == Filter(Among(key, k), s)
  {
    var ties := Filter(Among(key, k), s);
    SortIsStable(key, Among(key, k), s);
    forall i | 0 <= i < |ties| ensures key(ties[i]) == k {
      FilterMembers(Among(key, k), s, ties[i]);
    }
    SortTies(key, k, ties);
  }

  lemma {:induction false} SortTies<T>(key: T -> int, k: int, s: seq<T>)
    requires forall i :: 0 <= i < |s| ==> key(s[i]) == k
    ensures Sort(key, s) == s
  {
    if s != [] {
      SortTies(key, k, s[1..]);
      assert s == [s[0]] + s[1..];
    }
  }
}
