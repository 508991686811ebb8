/** Finite sums over maps and sequences, used to state how many bytes a set of leases or threads holds. */
module Sums {

  /** The sum of all values of `w`. */
  ghost function Total<K>(w: map<K, nat>): nat
    decreases |w|
  {
    if w == map[] then 0
    else
      var k :| k in w;
      w[k] + Total(w - {k})
  }

  /** The sum does not depend on the order in which keys are taken out. */
  lemma {:induction false} TotalSplit<K>(w: map<K, nat>, k: K)
    requires k in w
    ensures Total(w) == w[k] + Total(w - {k})
    decreases |w|
  {
    var c :| c in w && Total(w) == w[c] + Total(w - {c});
    if c != k {
      TotalSplit(w - {c}, k);
      TotalSplit(w - {k}, c);
      assert w - {c} - {k} == w - {k} - {c};
    }
  }

  lemma TotalPut<K>(w: map<K, nat>, k: K, v: nat)
    ensures Total(w[k := v]) + (if k in w then w[k] else 0) == Total(w) + v
  {
    TotalSplit(w[k := v], k);
    if k in w {
      TotalSplit(w, k);
      assert w[k := v] - {k} == w - {k};
    } else {
      assert w[k := v] - {k} == w;
    }
  }

  /** Dropping keys whose value is zero keeps the sum. */
  lemma {:induction false} TotalDropZero<K>(w: map<K, nat>, part: map<K, nat>)
    requires part.Keys <= w.Keys
    requires forall k :: k in w ==> if k in part then part[k] == w[k] else w[k] == 0
    ensures Total(part) == Total(w)
    decreases |w|
  {
    if w == map[] {
      assert part == map[];
    } else {
      var k :| k in w;
      TotalSplit(w, k);
      if k in part {
        TotalSplit(part, k);
        TotalDropZero(w - {k}, part - {k});
      } else {
        TotalDropZero(w - {k}, part);
      }
    }
  }

  lemma {:induction false} TotalZero<K>(w: map<K, nat>)
    requires forall k :: k in w ==> w[k] == 0
    ensures Total(w) == 0
  {
    TotalDropZero(w, map[]);
  }

  /** No repeated element. */
  ghost predicate Distinct<K(!new)>(s: seq<K>) {
    forall i, j :: 0 <= i < j < |s| ==> s[i] != s[j]
  }

  /** The sum of `w` along `order`. */
  ghost function SumOver<K>(order: seq<K>, w: map<K, nat>): nat
    requires forall k :: k in order ==> k in w
  {
    if order == [] then 0 else w[order[0]] + SumOver(order[1..], w)
  }

  lemma {:induction false} SumOverFrame<K>(order: seq<K>, v: map<K, nat>, w: map<K, nat>)
    requires forall k :: k in order ==> k in v && k in w && v[k] == w[k]
    ensures SumOver(order, v) == SumOver(order, w)
  {
    if order != [] {
      SumOverFrame(order[1..], v, w);
    }
  }

  /** Summing along any enumeration of the keys gives the total. */
  lemma {:induction false} SumOverIsTotal<K(!new)>(order: seq<K>, w: map<K, nat>)
    requires Distinct(order)
    requires forall k :: k in order <==> k in w
    ensures SumOver(order, w) == Total(w)
    decreases |order|
  {
    if order == [] {
      assert w == map[];
    } else {
      var k := order[0];
      assert k in w;
      TotalSplit(w, k);
      var rest := order[1..];
      forall x ensures x in rest <==> x in w - {k} {
        if x in rest {
          var i :| 0 <= i < |rest| && rest[i] == x;
          assert order[i + 1] == x;
        }
        if x in w - {k} {
          assert x in order;
          var i :| 0 <= i < |order| && order[i] == x;
          assert rest[i - 1] == x;
        }
      }
      SumOverIsTotal(rest, w - {k});
      SumOverFrame(rest, w, w - {k});
    }
  }
}
