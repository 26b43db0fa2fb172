/** Counting tables as finite maps, with the operations Python's `Counter` and
    `defaultdict(int)` provide: reading a missing key as 0, incrementing a key,
    tallying a sequence of keys, and the total of all counts. */
module Counters {

  /** `table.get(key, 0)`, and also a `defaultdict(int)` read. */
  function Get<K>(table: map<K, int>, key: K): int {
    if key in table then table[key] else 0
  }

  /** The first position of `x` in `w`. */
  function IndexOf<K(==)>(w: seq<K>, x: K): (i: nat)
    requires x in w
    ensures i < |w| && w[i] == x && x !in w[..i]
  {
    if w[0] == x then 0 else assert x in w[1..]; 1 + IndexOf(w[1..], x)
  }

  lemma IndexOfAppend<K>(w: seq<K>, y: K, x: K)
    requires x in w
    ensures IndexOf(w + [y], x) == IndexOf(w, x)
  {
    var i, j := IndexOf(w, x), IndexOf(w + [y], x);
    assert (w + [y])[i] == x;
  }

  /** The table built by `counts[key] += 1` for each key of `w` in turn,
      starting from an empty `defaultdict(int)`. */
  function Tally<K>(w: seq<K>): (table: map<K, int>) {
    if w == [] then map[]
    else
      var before := Tally(w[..|w| - 1]);
      before[w[|w| - 1] := Get(before, w[|w| - 1]) + 1]
  }

  /** The tally holds exactly the keys of `w`, each with its number of occurrences. */
  lemma {:induction false} TallyCounts<K>(w: seq<K>)
    ensures forall x :: x in Tally(w) <==> x in w
    ensures forall x :: Get(Tally(w), x) == multiset(w)[x]
  {
    if w != [] {
      var init, last := w[..|w| - 1], w[|w| - 1];
      assert w == init + [last];
      TallyCounts(init);
    }
  }

  /** The keys of `w` in order of first appearance (the key order of the
      dictionary `Tally` builds). */
  function Distinct<K(==)>(w: seq<K>): (keys: seq<K>) {
    if w == [] then []
    else
      var before := Distinct(w[..|w| - 1]);
      if w[|w| - 1] in before then before else before + [w[|w| - 1]]
  }

  /** `Distinct(w)` lists every key of `w` once. */
  lemma {:induction false} DistinctKeys<K>(w: seq<K>)
    ensures forall x :: x in Distinct(w) <==> x in w
    ensures forall a, b :: 0 <= a < b < |Distinct(w)| ==> Distinct(w)[a] != Distinct(w)[b]
  {
    if w != [] {
      var init, last := w[..|w| - 1], w[|w| - 1];
      assert w == init + [last];
      DistinctKeys(init);
    }
  }

  /** The keys of `Distinct(w)` come in the order of their first positions in `w`. */
  lemma {:induction false} DistinctOrdered<K>(w: seq<K>)
    ensures forall x :: x in Distinct(w) ==> x in w
    ensures forall a, b :: 0 <= a < b < |Distinct(w)| ==> IndexOf(w, Distinct(w)[a]) < IndexOf(w, Distinct(w)[b])
  {
    DistinctKeys(w);
    if w != [] {
      var init, last := w[..|w| - 1], w[|w| - 1];
      assert w == init + [last];
      DistinctOrdered(init);
      DistinctKeys(init);
      forall x | x in init ensures IndexOf(w, x) == IndexOf(init, x) {
        IndexOfAppend(init, last, x);
      }
      var before, keys := Distinct(init), Distinct(w);
      assert w[|init|] == last;
      forall a, b | 0 <= a < b < |keys| ensures IndexOf(w, keys[a]) < IndexOf(w, keys[b]) {
        assert keys[a] == before[a] && before[a] in init;
        if b < |before| {
          assert keys[b] == before[b] && before[b] in init;
        } else {
          assert keys[b] == last && last !in init;
          assert IndexOf(w, keys[a]) == IndexOf(init, keys[a]) < |init|;
        }
      }
    }
  }

  /** The tally and the key order hold the same keys. */
  lemma {:induction false} TallyDistinctKeys<K>(w: seq<K>)
    ensures forall x :: x in Tally(w) <==> x in Distinct(w)
  {
    if w != [] {
      TallyDistinctKeys(w[..|w| - 1]);
    }
  }

  /** Tallying one more key of `w` increments that key only, and appends it
      to the key order when it is new. */
  lemma TallyStep<K>(w: seq<K>, i: nat)
    requires i < |w|
    ensures Tally(w[..i + 1]) == Tally(w[..i])[w[i] := Get(Tally(w[..i]), w[i]) + 1]
    ensures Distinct(w[..i + 1]) == if w[i] in Distinct(w[..i]) then Distinct(w[..i]) else Distinct(w[..i]) + [w[i]]
  {
    assert w[..i + 1][..i] == w[..i];
  }

  /** The sum of all counts in a table. */
  ghost function SumValues<K>(table: map<K, int>): int
    decreases |table|
  {
    if table == map[] then 0
    else
      var k :| k in table;
      assert |table - {k}| < |table| by {
        assert (table - {k}).Keys == table.Keys - {k};
      }
      table[k] + SumValues(table - {k})
  }

  /** The sum does not depend on which key is taken out first. */
  lemma SumValuesRemove<K>(table: map<K, int>, key: K)
    requires key in table
    ensures SumValues(table) == table[key] + SumValues(table - {key})
    decreases |table|
  {
    var k :| k in table && SumValues(table) == table[k] + SumValues(table - {k});
    if k != key {
      assert (table - {k}).Keys == table.Keys - {k};
      assert (table - {key}).Keys == table.Keys - {key};
      SumValuesRemove(table - {k}, key);
      SumValuesRemove(table - {key}, k);
      assert table - {k} - {key} == table - {key} - {k};
    }
  }

  /** Setting one key changes the sum by the difference of its counts. */
  lemma SumValuesUpdate<K>(table: map<K, int>, key: K, v: int)
    ensures SumValues(table[key := v]) == SumValues(table) - Get(table, key) + v
  {
    var t := table[key := v];
    SumValuesRemove(t, key);
    assert t - {key} == table - {key};
    if key in table {
      SumValuesRemove(table, key);
    } else {
      assert table - {key} == table;
    }
  }

  /** `SumValuesUpdate` for a table already known to be the updated one. */
  lemma SumValuesAfterUpdate<K>(updated: map<K, int>, table: map<K, int>, key: K, v: int)
    requires updated == table[key := v]
    ensures SumValues(updated) == SumValues(table) - Get(table, key) + v
  {
    SumValuesUpdate(table, key, v);
  }

  /** The counts of a tally add up to the number of keys tallied. */
  lemma {:induction false} SumTally<K>(w: seq<K>)
    ensures SumValues(Tally(w)) == |w|
  {
    if w != [] {
      var init := w[..|w| - 1];
      SumTally(init);
      SumValuesUpdate(Tally(init), w[|w| - 1], Get(Tally(init), w[|w| - 1]) + 1);
    }
  }
}
