/** Shared vocabulary: wrappers, threshold parameters and finite-set facts. */
module Core {

  datatype Option<+T> = None | Some(value: T)

  datatype Result<+T, +E> = Ok(value: T) | Err(error: E)

  /** FROST identifiers and request ids are only compared and ordered. */
  type Identifier = nat
  type Uuid = nat
  type Message = seq<nat>

  type u16 = x: int | 0 <= x < 0x1_0000

  datatype MpcParams = MpcParams(threshold: u16, total: u16) {
    predicate Valid() {
      1 <= threshold <= total
    }
  }

  datatype ParamsError = InvalidParams(threshold: u16, total: u16)

  /** The checked constructor; deserialization can bypass it. */
  function NewParams(threshold: u16, total: u16): (r: Result<MpcParams, ParamsError>)
    ensures r.Ok? <==> 1 <= threshold <= total
    ensures r.Ok? ==> r.value.threshold == threshold && r.value.total == total
    ensures r.Err? ==> r.error.threshold == threshold && r.error.total == total
  {
    if threshold == 0 || total == 0 || threshold > total
    then Err(InvalidParams(threshold, total))
    else Ok(MpcParams(threshold, total))
  }

  lemma {:induction false} Least(s: set<nat>) returns (m: nat)
    requires s != {}
    ensures m in s && forall x :: x in s ==> m <= x
  {
    var y :| y in s;
    m := y;
    var rest := s - {y};
    assert s == rest + {y};
    if rest == {} {
    } else {
      var n := Least(rest);
      if n < y { m := n; }
    }
  }

  lemma MinExists(s: set<nat>)
    requires s != {}
    ensures exists m :: m in s && forall x :: x in s ==> m <= x
  {
    var m := Least(s);
  }

  /** First key in `BTreeMap` / `BTreeSet` iteration order. */
  function Min(s: set<nat>): (m: nat)
    requires s != {}
    ensures m in s
    ensures forall x :: x in s ==> m <= x
  {
    MinExists(s);
    var m :| m in s && forall x :: x in s ==> m <= x;
    m
  }

  lemma SubsetCardinality<T>(a: set<T>, b: set<T>)
    requires a <= b
    ensures |a| <= |b|
    ensures |a| == |b| <==> a == b
  {
    assert b == a + (b - a);
    assert |b| == |a| + |b - a|;
    if |a| == |b| {
      assert b - a == {};
    }
  }

  /** The ordered pairs of distinct members of `s`. */
  ghost function OrderedPairs(s: set<nat>): set<(nat, nat)> {
    set a, b | a in s && b in s && a != b :: (a, b)
  }

  ghost function Outgoing(x: nat, s: set<nat>): set<(nat, nat)> {
    set b | b in s :: (x, b)
  }

  ghost function Incoming(x: nat, s: set<nat>): set<(nat, nat)> {
    set b | b in s :: (b, x)
  }

  lemma {:induction false} RowCount(x: nat, s: set<nat>)
    ensures |Outgoing(x, s)| == |s|
    ensures |Incoming(x, s)| == |s|
  {
    if s == {} {
      assert Outgoing(x, s) == {} && Incoming(x, s) == {};
    } else {
      var y :| y in s;
      var rest := s - {y};
      RowCount(x, rest);
      assert Outgoing(x, s) == Outgoing(x, rest) + {(x, y)};
      assert Incoming(x, s) == Incoming(x, rest) + {(y, x)};
    }
  }

  lemma PairsSplit(x: nat, rest: set<nat>)
    requires x !in rest
    ensures OrderedPairs(rest + {x}) == OrderedPairs(rest) + Outgoing(x, rest) + Incoming(x, rest)
    ensures |OrderedPairs(rest + {x})| == |OrderedPairs(rest)| + |Outgoing(x, rest)| + |Incoming(x, rest)|
  {
    forall p | p in OrderedPairs(rest + {x})
      ensures p in OrderedPairs(rest) + Outgoing(x, rest) + Incoming(x, rest)
    {
      assert p == (p.0, p.1);
      if p.0 == x {
        assert p in Outgoing(x, rest);
      } else if p.1 == x {
        assert p in Incoming(x, rest);
      }
    }
    assert OrderedPairs(rest + {x}) == OrderedPairs(rest) + Outgoing(x, rest) + Incoming(x, rest);
    assert OrderedPairs(rest) !! Outgoing(x, rest);
    assert OrderedPairs(rest) + Outgoing(x, rest) !! Incoming(x, rest);
  }

  /** n(n-1) ordered pairs: the pigeonhole count behind the round-2 barrier. */
  lemma {:induction false} OrderedPairsCount(s: set<nat>)
    ensures |OrderedPairs(s)| == |s| * (|s| - 1)
  {
    if s == {} {
      assert OrderedPairs(s) == {};
    } else {
      var x :| x in s;
      var rest := s - {x};
      assert s == rest + {x};
      OrderedPairsCount(rest);
      RowCount(x, rest);
      PairsSplit(x, rest);
      NextSquare(|rest|, |s|);
    }
  }

  lemma NextSquare(m: nat, n: nat)
    requires n == m + 1
    ensures m * (m - 1) + m + m == n * (n - 1)
  {
  }

  /** The first `k` entries of a map in key order: `iter().take(k)`. */
  function TakeSmallest<V>(m: map<nat, V>, k: nat): (r: map<nat, V>)
    ensures r.Keys <= m.Keys
    ensures forall i :: i in r ==> r[i] == m[i]
    ensures |r| == if k < |m| then k else |m|
    ensures forall i, j :: i in r && j in m && j !in r ==> i <= j
    decreases k
  {
    if k == 0 || m == map[] then map[]
    else
      var least := Min(m.Keys);
      var rest := TakeSmallest(m - {least}, k - 1);
      assert |m.Keys| == |(m - {least}).Keys| + 1 by {
        assert (m - {least}).Keys == m.Keys - {least};
      }
      assert rest[least := m[least]].Keys == rest.Keys + {least};
      rest[least := m[least]]
  }

  /** Taking at least the whole map keeps the whole map. */
  lemma TakeAll<V>(m: map<nat, V>, k: nat)
    requires |m| <= k
    ensures TakeSmallest(m, k) == m
  {
    SubsetCardinality(TakeSmallest(m, k).Keys, m.Keys);
  }
}
