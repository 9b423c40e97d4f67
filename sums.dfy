/** Finite sums of real-valued maps, the arithmetic behind "the ranks sum to 1". */
module Sums {

  /**
    Some member of a non-empty set; the same set always yields the same member,
    so two maps with the same keys are summed in the same order.
   */
  ghost function Pick<K>(s: set<K>): (k: K)
    requires s != {}
    ensures k in s
  {
    var k :| k in s; k
  }

  /** The values of `m` added up one key at a time, in the order `Pick` chooses. */
  ghost function Accumulate<K>(m: map<K, real>): real
    decreases |m|
  {
    if m == map[] then 0.0
    else
      var k := Pick(m.Keys);
      assert |m - {k}| < |m| by { assert (m - {k}).Keys == m.Keys - {k}; }
      m[k] + Accumulate(m - {k})
  }

  /**
    The sum of all values of `m`. It is not itself recursive, so that a product
    such as `c * Sum(m)` denotes one and the same term wherever it is written.
   */
  ghost function Sum<K>(m: map<K, real>): real {
    Accumulate(m)
  }

  /** Any key, not only the one Sum picks, can be split off the sum. */
  lemma {:induction false} SumRemove<K>(m: map<K, real>, k: K)
    requires k in m
    ensures Sum(m) == m[k] + Sum(m - {k})
    decreases |m|
  {
    var j := Pick(m.Keys);
    if j != k {
      assert (m - {j}).Keys == m.Keys - {j};
      assert (m - {k}).Keys == m.Keys - {k};
      SumRemove(m - {j}, k);
      SumRemove(m - {k}, j);
      assert m - {j} - {k} == m - {k} - {j};
    }
  }

  /** Adding a fresh key adds its value to the sum. */
  lemma SumInsert<K>(m: map<K, real>, k: K, v: real)
    requires k !in m
    ensures Sum(m[k := v]) == Sum(m) + v
  {
    SumRemove(m[k := v], k);
    assert m[k := v] - {k} == m;
  }

  /** The sum of a two-entry map. */
  lemma SumPair<K>(a: K, x: real, b: K, y: real)
    requires a != b
    ensures Sum(map[a := x, b := y]) == x + y
  {
    SumInsert(map[], a, x);
    SumInsert(map[a := x], b, y);
  }

  /** The value `c` on every key of `s`. */
  ghost function Constant<K>(s: set<K>, c: real): map<K, real> {
    map k | k in s :: c
  }

  /** The value `c` on the keys of `s` that are in `l`, and 0 on the others. */
  ghost function Indicator<K>(s: set<K>, l: set<K>, c: real): map<K, real> {
    map k | k in s :: if k in l then c else 0.0
  }

  /** The pointwise sum of two maps with the same keys. */
  ghost function Plus<K>(a: map<K, real>, b: map<K, real>): map<K, real>
    requires a.Keys == b.Keys
  {
    map k | k in a :: a[k] + b[k]
  }

  /** Every value of `m` multiplied by `c`. */
  ghost function Scale<K>(m: map<K, real>, c: real): map<K, real> {
    map k | k in m :: c * m[k]
  }

  /** Summing is linear: the sum of pointwise sums is the sum of the sums. */
  lemma {:induction false} SumAdd<K>(a: map<K, real>, b: map<K, real>)
    requires a.Keys == b.Keys
    ensures Sum(Plus(a, b)) == Sum(a) + Sum(b)
    decreases |a|
  {
    var c := Plus(a, b);
    if a != map[] {
      var k := Pick(a.Keys);
      SumRemove(c, k);
      SumRemove(a, k);
      SumRemove(b, k);
      assert (a - {k}).Keys == a.Keys - {k};
      SumAdd(a - {k}, b - {k});
      assert (b - {k}).Keys == b.Keys - {k};
      assert c - {k} == Plus(a - {k}, b - {k});
    } else {
      assert c == map[];
      assert b == map[];
    }
  }

  /** The keys of a finite set, listed in the order `Accumulate` visits them. */
  ghost function Order<K>(s: set<K>): (ks: seq<K>)
    ensures |ks| == |s|
    ensures forall i :: 0 <= i < |ks| ==> ks[i] in s
    decreases |s|
  {
    if s == {} then []
    else
      var k := Pick(s);
      [k] + Order(s - {k})
  }

  /** No key is listed twice. */
  ghost predicate Distinct<K>(ks: seq<K>) {
    ks == [] || (ks[0] !in ks[1..] && Distinct(ks[1..]))
  }

  /** Listing a key not yet listed keeps the listing free of repeats. */
  lemma {:induction false} DistinctAppend<K>(ks: seq<K>, k: K)
    requires Distinct(ks) && k !in ks
    ensures Distinct(ks + [k])
  {
    if ks != [] {
      assert (ks + [k])[1..] == ks[1..] + [k];
      DistinctAppend(ks[1..], k);
    }
  }

  /** `Order` lists every member of the set exactly once. */
  lemma {:induction false} OrderLists<K>(s: set<K>)
    ensures Distinct(Order(s))
    ensures forall k :: k in Order(s) <==> k in s
    decreases |s|
  {
    if s != {} {
      var k := Pick(s);
      var rest := Order(s - {k});
      OrderLists(s - {k});
      assert Order(s) == [k] + rest;
      forall x | x in s ensures x in Order(s) {
        if x != k {
          assert x in rest;
        }
      }
    }
  }

  /**
    A fixed listing of the members of a finite set, each exactly once. Unlike
    `Order` it is not unfolded: only the properties below are known of it.
   */
  ghost function Enumerate<K(!new)>(s: set<K>): (ks: seq<K>)
    ensures |ks| == |s| && Distinct(ks)
    ensures forall k :: k in ks <==> k in s
  {
    OrderLists(s);
    var ks :| |ks| == |s| && Distinct(ks) && (forall k :: k in ks <==> k in s);
    ks
  }

  /** The values of `m` at the keys listed in `ks`, added from the front. */
  ghost function AccumulateAt<K>(ks: seq<K>, m: map<K, real>): real {
    if ks == [] then 0.0
    else (if ks[0] in m then m[ks[0]] else 0.0) + AccumulateAt(ks[1..], m)
  }

  /** The sum of the values of `m` at the keys listed in `ks`. */
  ghost function SumAt<K>(ks: seq<K>, m: map<K, real>): real {
    AccumulateAt(ks, m)
  }

  /** `Sum` adds the values in the order `Order` lists the keys. */
  lemma {:induction false} SumInOrder<K>(m: map<K, real>)
    ensures Sum(m) == SumAt(Order(m.Keys), m)
    decreases |m|
  {
    if m != map[] {
      var k := Pick(m.Keys);
      var rest := m - {k};
      assert rest.Keys == m.Keys - {k};
      var ks := Order(rest.Keys);
      assert Order(m.Keys) == [k] + ks;
      assert SumAt([k] + ks, m) == m[k] + SumAt(ks, m) by {
        assert ([k] + ks)[1..] == ks;
      }
      SumInOrder(rest);
      SumAtIgnores(ks, m, k);
    }
  }

  /** Removing a key that is not listed leaves the sum over the list unchanged. */
  lemma {:induction false} SumAtIgnores<K>(ks: seq<K>, m: map<K, real>, k: K)
    requires k !in ks
    ensures SumAt(ks, m - {k}) == SumAt(ks, m)
  {
    if ks != [] {
      SumAtIgnores(ks[1..], m, k);
    }
  }

  /** Listing one more key adds its value. */
  lemma {:induction false} SumAtAppend<K>(ks: seq<K>, m: map<K, real>, k: K)
    requires k in m
    ensures SumAt(ks + [k], m) == SumAt(ks, m) + m[k]
  {
    if ks == [] {
      assert [k][1..] == [];
    } else {
      assert (ks + [k])[1..] == ks[1..] + [k];
      SumAtAppend(ks[1..], m, k);
    }
  }

  /** A list of distinct keys that names every key of `m` once sums to `Sum(m)`. */
  lemma {:induction false} SumAtAllKeys<K>(ks: seq<K>, m: map<K, real>)
    requires Distinct(ks)
    requires forall k :: k in ks <==> k in m
    ensures SumAt(ks, m) == Sum(m)
  {
    if ks == [] {
      assert forall k :: k !in m;
      assert m == map[];
    } else {
      var k, rest := ks[0], ks[1..];
      assert k !in rest by {
        forall i | 0 <= i < |rest| ensures rest[i] != k { assert ks[i + 1] == rest[i]; }
      }
      assert forall j :: j in rest <==> j in m - {k} by {
        forall j ensures j in rest <==> j in m - {k} {
          if j in rest {
            var i :| 0 <= i < |rest| && rest[i] == j;
            assert ks[i + 1] == j;
          }
          if j in m - {k} {
            assert j in ks && j != ks[0];
            var i :| 0 <= i < |ks| && ks[i] == j;
            assert rest[i - 1] == j;
          }
        }
      }
      SumAtAllKeys(rest, m - {k});
      SumAtIgnores(rest, m, k);
      SumRemove(m, k);
    }
  }

  /** `c` added up `n` times; kept apart from multiplication so that sums stay linear. */
  ghost function Times(n: nat, c: real): real {
    if n == 0 then 0.0 else c + Times(n - 1, c)
  }

  /** Adding `c` up `n` times is multiplying it by `n`. */
  lemma {:induction false} TimesIsProduct(n: nat, c: real)
    ensures Times(n, c) == n as real * c
  {
    if n > 0 {
      TimesIsProduct(n - 1, c);
    }
  }

  /** When every listed value of `m` is `c` plus the value of `f`, the sums differ by `c` once per key. */
  lemma {:induction false} SumAtShift<K>(ks: seq<K>, m: map<K, real>, f: map<K, real>, c: real)
    requires forall i :: 0 <= i < |ks| ==> ks[i] in m && ks[i] in f && m[ks[i]] == c + f[ks[i]]
    ensures SumAt(ks, m) == Times(|ks|, c) + SumAt(ks, f)
  {
    if ks != [] {
      SumAtShift(ks[1..], m, f, c);
    }
  }

  /** Scaling every value scales a sum over a list of keys. */
  lemma {:induction false} SumAtScale<K>(ks: seq<K>, m: map<K, real>, c: real)
    ensures SumAt(ks, Scale(m, c)) == c * SumAt(ks, m)
  {
    if ks != [] {
      SumAtScale(ks[1..], m, c);
    }
  }

  /** Scaling every value scales the sum. */
  lemma SumScale<K>(m: map<K, real>, c: real)
    ensures Sum(Scale(m, c)) == c * Sum(m)
  {
    var ks := Order(m.Keys);
    assert Sum(Scale(m, c)) == SumAt(ks, Scale(m, c)) by {
      assert Scale(m, c).Keys == m.Keys;
      SumInOrder(Scale(m, c));
    }
    SumInOrder(m);
    SumAtScale(ks, m, c);
    Rescale(Sum(Scale(m, c)), SumAt(ks, Scale(m, c)), SumAt(ks, m), Sum(m), c);
  }

  /** The arithmetic step of `SumScale`. */
  lemma Rescale(a: real, b: real, x: real, y: real, c: real)
    requires a == b && b == c * x && x == y
    ensures a == c * y
  {
  }

  /** A constant spread over a set sums to the constant times the set's size. */
  lemma {:induction false} SumConst<K>(s: set<K>, c: real)
    ensures Sum(Constant(s, c)) == |s| as real * c
    decreases |s|
  {
    var m := Constant(s, c);
    if s != {} {
      var x :| x in s;
      assert x in m;
      var k := Pick(m.Keys);
      SumRemove(m, k);
      SumConst(s - {k}, c);
      assert m - {k} == Constant(s - {k}, c);
    } else {
      assert m == map[];
    }
  }

  /** A constant placed on the members of `l` and zero elsewhere sums to `|l| * c`. */
  lemma {:induction false} SumIndicator<K>(s: set<K>, l: set<K>, c: real)
    requires l <= s
    ensures Sum(Indicator(s, l, c)) == |l| as real * c
    decreases |s|
  {
    var m := Indicator(s, l, c);
    if s != {} {
      var x :| x in s;
      assert x in m;
      var k := Pick(m.Keys);
      SumRemove(m, k);
      SumIndicator(s - {k}, l - {k}, c);
      assert m - {k} == Indicator(s - {k}, l - {k}, c);
      if k in l {
        assert |l - {k}| == |l| - 1;
      } else {
        assert l - {k} == l;
      }
    } else {
      assert m == map[];
      assert l == {};
    }
  }

  /** A map of non-negative values has a non-negative sum. */
  lemma {:induction false} SumNonNegative<K>(m: map<K, real>)
    requires forall k :: k in m ==> 0.0 <= m[k]
    ensures 0.0 <= Sum(m)
    decreases |m|
  {
    if m != map[] {
      var k := Pick(m.Keys);
      assert (m - {k}).Keys == m.Keys - {k};
      SumNonNegative(m - {k});
    }
  }

  /** With no negative value, no single value exceeds the sum. */
  lemma EntryAtMostSum<K>(m: map<K, real>, k: K)
    requires k in m && forall j :: j in m ==> 0.0 <= m[j]
    ensures m[k] <= Sum(m)
  {
    SumRemove(m, k);
    SumNonNegative(m - {k});
  }
}
