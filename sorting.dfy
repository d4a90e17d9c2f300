/** The stable ascending sort by timestamp that the dashboard applies to a copy of
    the fetched readings (`[...data].sort((a, b) => a.timestamp - b.timestamp)`),
    and that the measurement store's ascending range query produces. */
module Sorting {
  import opened Common

  predicate SortedByTimestamp(s: seq<Measurement>) {
    forall i, j :: 0 <= i < j < |s| ==> s[i].timestamp <= s[j].timestamp
  }

  /** The readings of `s` that carry timestamp `t`, in their order in `s`. */
  function WithTimestamp(s: seq<Measurement>, t: int): seq<Measurement>
  {
    if s == [] then [] else (if s[0].timestamp == t then [s[0]] else []) + WithTimestamp(s[1..], t)
  }

  /** Puts `x` in front of the first element whose timestamp is not smaller. */
  function Insert(x: Measurement, s: seq<Measurement>): (r: seq<Measurement>)
    ensures multiset(r) == multiset(s) + multiset{x}
  {
    if s == [] || x.timestamp <= s[0].timestamp then [x] + s
    else
      assert s == [s[0]] + s[1..];
      [s[0]] + Insert(x, s[1..])
  }

  /** A lower bound of `x` and of every element of `s` bounds every element of `Insert(x, s)`. */
  lemma {:induction false} InsertBounded(x: Measurement, s: seq<Measurement>, lo: int)
    requires x.timestamp >= lo && forall i :: 0 <= i < |s| ==> s[i].timestamp >= lo
    ensures forall i :: 0 <= i < |Insert(x, s)| ==> Insert(x, s)[i].timestamp >= lo
  {
    if s != [] && x.timestamp > s[0].timestamp {
      InsertBounded(x, s[1..], lo);
    }
  }

  /** A sorted sequence stays sorted behind an element no later than any of it. */
  lemma ConsSorted(h: Measurement, rest: seq<Measurement>)
    requires SortedByTimestamp(rest) && forall i :: 0 <= i < |rest| ==> h.timestamp <= rest[i].timestamp
    ensures SortedByTimestamp([h] + rest)
  {
    var r := [h] + rest;
    forall i, j | 0 <= i < j < |r| ensures r[i].timestamp <= r[j].timestamp {
      if i > 0 { assert r[i] == rest[i - 1]; }
      assert r[j] == rest[j - 1];
    }
  }

  lemma {:induction false} InsertSorted(x: Measurement, s: seq<Measurement>)
    requires SortedByTimestamp(s)
    ensures SortedByTimestamp(Insert(x, s))
  {
    if s == [] || x.timestamp <= s[0].timestamp {
      ConsSorted(x, s);
    } else {
      assert SortedByTimestamp(s[1..]);
      InsertSorted(x, s[1..]);
      InsertBounded(x, s[1..], s[0].timestamp);
      ConsSorted(s[0], Insert(x, s[1..]));
    }
  }

  /** Insertion sort: `x` is inserted ahead of equal timestamps that come after it
      in the input, so equal timestamps keep their input order. */
  function Sort(s: seq<Measurement>): (r: seq<Measurement>)
    ensures SortedByTimestamp(r)
    ensures multiset(r) == multiset(s)
    ensures |r| == |s|
  {
    if s == [] then []
    else
      assert s == [s[0]] + s[1..];
      InsertSorted(s[0], Sort(s[1..]));
      Insert(s[0], Sort(s[1..]))
  }

  lemma {:induction false} InsertWithTimestamp(x: Measurement, s: seq<Measurement>, t: int)
    ensures WithTimestamp(Insert(x, s), t) == (if x.timestamp == t then [x] else []) + WithTimestamp(s, t)
  {
    if s == [] || x.timestamp <= s[0].timestamp {
      assert ([x] + s)[1..] == s;
    } else {
      InsertWithTimestamp(x, s[1..], t);
      assert ([s[0]] + Insert(x, s[1..]))[1..] == Insert(x, s[1..]);
    }
  }

  /** Stability: for every timestamp, the readings that carry it appear in the
      sorted sequence in the order they had in the input. */
  lemma {:induction false} SortStable(s: seq<Measurement>, t: int)
    ensures WithTimestamp(Sort(s), t) == WithTimestamp(s, t)
  {
    if s != [] {
      SortStable(s[1..], t);
      InsertWithTimestamp(s[0], Sort(s[1..]), t);
    }
  }

  /** Sorting input that is already in ascending order changes nothing. */
  lemma {:induction false} SortSortedIdentity(s: seq<Measurement>)
    requires SortedByTimestamp(s)
    ensures Sort(s) == s
  {
    if s != [] {
      assert SortedByTimestamp(s[1..]);
      SortSortedIdentity(s[1..]);
      assert s == [s[0]] + s[1..];
    }
  }

  /** A sorted sequence whose readings of each timestamp are in input order is the
      result of `Sort`: the two properties above determine it. */
  lemma {:induction false} SortUnique(s: seq<Measurement>, r: seq<Measurement>)
    requires SortedByTimestamp(r)
    requires forall t :: WithTimestamp(r, t) == WithTimestamp(s, t)
    ensures r == Sort(s)
  {
    forall t ensures WithTimestamp(r, t) == WithTimestamp(Sort(s), t) {
      SortStable(s, t);
    }
    SortedSameKeysEqual(r, Sort(s));
  }

  lemma {:induction false} WithTimestampMember(s: seq<Measurement>, t: int)
    requires WithTimestamp(s, t) != []
    ensures exists i :: 0 <= i < |s| && s[i].timestamp == t
  {
    if s[0].timestamp != t {
      WithTimestampMember(s[1..], t);
      var i :| 0 <= i < |s[1..]| && s[1..][i].timestamp == t;
      assert s[i + 1].timestamp == t;
    }
  }

  /** In a sorted sequence that holds a reading with timestamp `t`, the first
      reading's timestamp is at most `t`. */
  lemma SortedHeadAtMost(q: seq<Measurement>, t: int)
    requires SortedByTimestamp(q) && WithTimestamp(q, t) != []
    ensures q[0].timestamp <= t
  {
    WithTimestampMember(q, t);
    var i :| 0 <= i < |q| && q[i].timestamp == t;
    assert i == 0 || q[0].timestamp <= q[i].timestamp;
  }

  lemma SameHeads(r: seq<Measurement>, q: seq<Measurement>)
    requires SortedByTimestamp(r) && SortedByTimestamp(q) && r != [] && q != []
    requires WithTimestamp(r, r[0].timestamp) == WithTimestamp(q, r[0].timestamp)
    requires WithTimestamp(r, q[0].timestamp) == WithTimestamp(q, q[0].timestamp)
    ensures r[0] == q[0]
  {
    var a, b := r[0].timestamp, q[0].timestamp;
    assert WithTimestamp(r, a) == [r[0]] + WithTimestamp(r[1..], a);
    assert WithTimestamp(q, b) == [q[0]] + WithTimestamp(q[1..], b);
    SortedHeadAtMost(q, a);
    SortedHeadAtMost(r, b);
    assert a == b;
    assert WithTimestamp(q, a) == [q[0]] + WithTimestamp(q[1..], a);
    assert WithTimestamp(r, a)[0] == r[0] && WithTimestamp(q, a)[0] == q[0];
  }

  lemma SameTails(r: seq<Measurement>, q: seq<Measurement>, t: int)
    requires r != [] && q != [] && r[0] == q[0]
    requires WithTimestamp(r, t) == WithTimestamp(q, t)
    ensures WithTimestamp(r[1..], t) == WithTimestamp(q[1..], t)
  {
    var x, y := WithTimestamp(r[1..], t), WithTimestamp(q[1..], t);
    if r[0].timestamp == t {
      assert WithTimestamp(r, t) == [r[0]] + x && WithTimestamp(q, t) == [r[0]] + y;
      assert ([r[0]] + x)[1..] == x && ([r[0]] + y)[1..] == y;
    } else {
      assert WithTimestamp(r, t) == x && WithTimestamp(q, t) == y;
    }
  }

  lemma HeadHasOwnTimestamp(s: seq<Measurement>)
    requires s != []
    ensures WithTimestamp(s, s[0].timestamp) != []
  {
  }

  lemma {:induction false} SortedSameKeysEqual(r: seq<Measurement>, q: seq<Measurement>)
    requires SortedByTimestamp(r) && SortedByTimestamp(q)
    requires forall t :: WithTimestamp(r, t) == WithTimestamp(q, t)
    ensures r == q
  {
    if r == [] || q == [] {
      var s := if r == [] then q else r;
      if s != [] {
        HeadHasOwnTimestamp(s);
        assert false;
      }
    } else {
      SameHeads(r, q);
      forall t ensures WithTimestamp(r[1..], t) == WithTimestamp(q[1..], t) {
        SameTails(r, q, t);
      }
      assert SortedByTimestamp(r[1..]) && SortedByTimestamp(q[1..]);
      SortedSameKeysEqual(r[1..], q[1..]);
      assert r == [r[0]] + r[1..] && q == [q[0]] + q[1..];
    }
  }
}
