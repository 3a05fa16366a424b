/** Choosing elements of a sequence. */
module Selection {

  function Filter<T>(p: T -> bool, s: seq<T>): seq<T> {
    if s == [] then [] else (if p(s[0]) then [s[0]] else []) + Filter(p, s[1..])
  }

  /** `r` is what stands in `s` at the increasing positions `at`. */
  ghost predicate StandsAt<T(!new)>(s: seq<T>, at: seq<nat>, r: seq<T>) {
    && |at| == |r|
    && (forall k :: 0 <= k < |at| ==> at[k] < |s| && s[at[k]] == r[k])
    && (forall j, k :: 0 <= j < k < |at| ==> at[j] < at[k])
  }

  function Shifted(at: seq<nat>): (r: seq<nat>)
    ensures |r| == |at| && forall k :: 0 <= k < |at| ==> r[k] == at[k] + 1
  {
    seq(|at|, k requires 0 <= k < |at| => at[k] + 1)
  }

  function Positions<T>(p: T -> bool, s: seq<T>): seq<nat> {
    if s == [] then [] else (if p(s[0]) then [0] else []) + Shifted(Positions(p, s[1..]))
  }

  lemma {:induction false} PositionsChoose<T>(p: T -> bool, s: seq<T>, k: nat)
    requires k < |Positions(p, s)|
    ensures |Positions(p, s)| == |Filter(p, s)|
    ensures var i := Positions(p, s)[k]; i < |s| && s[i] == Filter(p, s)[k] && p(s[i])
  {
    var first := if p(s[0]) then 1 else 0;
    PositionsCount(p, s);
    if k >= first {
      PositionsChoose(p, s[1..], k - first);
    }
  }

  lemma {:induction false} PositionsCount<T>(p: T -> bool, s: seq<T>)
    ensures |Positions(p, s)| == |Filter(p, s)|
  {
    if s != [] {
      PositionsCount(p, s[1..]);
    }
  }

  lemma {:induction false} PositionsIncrease<T>(p: T -> bool, s: seq<T>, j: nat, k: nat)
    requires j < k < |Positions(p, s)|
    ensures Positions(p, s)[j] < Positions(p, s)[k]
  {
    var first := if p(s[0]) then 1 else 0;
    if j >= first {
      PositionsIncrease(p, s[1..], j - first, k - first);
    }
  }

  lemma {:induction false} PositionsComplete<T>(p: T -> bool, s: seq<T>, i: nat)
    requires i < |s| && p(s[i])
    ensures i in Positions(p, s)
  {
    var rest := Positions(p, s[1..]);
    if i > 0 {
      PositionsComplete(p, s[1..], i - 1);
      var k :| 0 <= k < |rest| && rest[k] == i - 1;
      assert Shifted(rest)[k] == i;
    }
  }

  /** Filtering keeps exactly the elements that satisfy `p`, each once, in order. */
  lemma FilterExactly<T(!new)>(p: T -> bool, s: seq<T>)
    ensures StandsAt(s, Positions(p, s), Filter(p, s))
    ensures forall i :: 0 <= i < |s| ==> (i in Positions(p, s) <==> p(s[i]))
  {
    var at := Positions(p, s);
    PositionsCount(p, s);
    forall k: nat | k < |at| ensures at[k] < |s| && s[at[k]] == Filter(p, s)[k] && p(s[at[k]]) {
      PositionsChoose(p, s, k);
    }
    forall j: nat, k: nat | j < k < |at| ensures at[j] < at[k] {
      PositionsIncrease(p, s, j, k);
    }
    forall i | 0 <= i < |s| ensures i in at <==> p(s[i]) {
      if p(s[i]) {
        PositionsComplete(p, s, i);
      }
    }
  }

  lemma {:induction false} FilterMembers<T>(p: T -> bool, s: seq<T>, x: T)
    ensures x in Filter(p, s) <==> x in s && p(x)
  {
    if s != [] {
      FilterMembers(p, s[1..], x);
    }
  }

  lemma Regroup<T>(a: seq<T>, b: seq<T>, c: seq<T>)
    ensures a + (b + c) == (a + b) + c
  {
  }

  lemma {:induction false} FilterConcat<T>(p: T -> bool, a: seq<T>, b: seq<T>)
    ensures Filter(p, a + b) == Filter(p, a) + Filter(p, b)
  {
    if a == [] {
      assert a + b == b;
    } else {
      assert (a + b)[0] == a[0] && (a + b)[1..] == a[1..] + b;
      FilterConcat(p, a[1..], b);
      Regroup(if p(a[0]) then [a[0]] else [], Filter(p, a[1..]), Filter(p, b));
    }
  }

  /** Choosing twice, in either order, is choosing what satisfies both. */
  lemma {:induction false} FilterTwice<T>(p: T -> bool, q: T -> bool, s: seq<T>)
    ensures Filter(p, Filter(q, s)) == Filter(q, Filter(p, s))
  {
    if s != [] {
      FilterTwice(p, q, s[1..]);
      FilterConcat(p, if q(s[0]) then [s[0]] else [], Filter(q, s[1..]));
      FilterConcat(q, if p(s[0]) then [s[0]] else [], Filter(p, s[1..]));
      assert [s[0]][1..] == [];
    }
  }

  /** What is already chosen stays. */
  lemma {:induction false} FilterChosen<T>(p: T -> bool, s: seq<T>)
    requires forall i :: 0 <= i < |s| ==> p(s[i])
    ensures Filter(p, s) == s
  {
    if s != [] {
      FilterChosen(p, s[1..]);
      assert s == [s[0]] + s[1..];
    }
  }
}
