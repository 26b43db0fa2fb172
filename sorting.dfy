/** Python's `sorted(items, key=lambda item: item[1], reverse=True)` on a list of
    (key, count) pairs. Python's sort is stable, also with `reverse=True`, so the
    result is fixed: larger counts first, and pairs with equal counts keep the
    order they had in the input. The sort is described on positions: `SortedOrder`
    lists the positions of the input in the order the sorted list takes them. */
module Sorting {
  import opened Counters

  /** Position `p` comes before position `q` in the sorted list. */
  predicate Before(counts: seq<int>, p: nat, q: nat)
    requires p < |counts| && q < |counts|
  {
    counts[p] > counts[q] || (counts[p] == counts[q] && p < q)
  }

  /** `order` lists positions of `counts`, each before all later ones. */
  predicate SortedBy(counts: seq<int>, order: seq<nat>) {
    && (forall i :: 0 <= i < |order| ==> order[i] < |counts|)
    && (forall i, j :: 0 <= i < j < |order| ==> Before(counts, order[i], order[j]))
  }

  /** Puts position `p` in its place in an already sorted list of positions. */
  function Insert(counts: seq<int>, order: seq<nat>, p: nat): (r: seq<nat>)
    requires p < |counts| && SortedBy(counts, order) && p !in order
    ensures SortedBy(counts, r)
    ensures |r| == |order| + 1
    ensures forall x :: x in r <==> x in order || x == p
  {
    if order == [] then [p]
    else if Before(counts, p, order[0]) then [p] + order
    else
      assert Before(counts, order[0], p);
      var rest := Insert(counts, order[1..], p);
      assert forall x :: x in rest ==> Before(counts, order[0], x) by {
        forall x | x in rest ensures Before(counts, order[0], x) {
          if x != p {
            var j :| 0 <= j < |order[1..]| && order[1..][j] == x;
            assert order[j + 1] == x;
          }
        }
      }
      [order[0]] + rest
  }

  /** The positions `0 .. n-1` in sorted order. */
  function SortedOrder(counts: seq<int>, n: nat): (order: seq<nat>)
    requires n <= |counts|
    ensures SortedBy(counts, order) && |order| == n
    ensures forall x :: x in order <==> 0 <= x < n
  {
    if n == 0 then [] else Insert(counts, SortedOrder(counts, n - 1), n - 1)
  }

  /** The counts of a list of pairs. */
  function Counts<K>(items: seq<(K, int)>): (counts: seq<int>)
    ensures |counts| == |items| && forall i :: 0 <= i < |items| ==> counts[i] == items[i].1
  {
    seq(|items|, i requires 0 <= i < |items| => items[i].1)
  }

  /** The positions of `items` in the order the sorted list takes them. */
  function Order<K>(items: seq<(K, int)>): (order: seq<nat>)
    ensures SortedBy(Counts(items), order) && |order| == |items|
    ensures forall x :: x in order <==> 0 <= x < |items|
  {
    SortedOrder(Counts(items), |items|)
  }

  /** The sorted list of pairs: a rearrangement of `items` (position `i` of the
      result holds item `Order(items)[i]`) with non-increasing counts. */
  function SortByCountDescending<K>(items: seq<(K, int)>): (sorted: seq<(K, int)>)
    ensures |sorted| == |items|
    ensures forall i :: 0 <= i < |sorted| ==> sorted[i] == items[Order(items)[i]]
    ensures forall i, j :: 0 <= i < j < |sorted| ==> sorted[i].1 >= sorted[j].1
    ensures forall i :: 0 <= i < |sorted| ==> sorted[i] in items
    ensures forall x :: 0 <= x < |items| ==> items[x] in sorted
  {
    var order := Order(items);
    var sorted := seq(|items|, i requires 0 <= i < |items| => items[order[i]]);
    forall x | 0 <= x < |items| ensures items[x] in sorted {
      assert x in order;
      var i :| 0 <= i < |order| && order[i] == x;
      assert sorted[i] == items[x];
    }
    sorted
  }

  /** The sort is stable: pairs with equal counts come out in the order of
      their positions in the input. */
  lemma SortStable<K>(items: seq<(K, int)>)
    ensures var sorted, order := SortByCountDescending(items), Order(items);
            forall i, j :: 0 <= i < j < |sorted| && sorted[i].1 == sorted[j].1 ==> order[i] < order[j]
  {
    var sorted, order := SortByCountDescending(items), Order(items);
    forall i, j | 0 <= i < j < |sorted| && sorted[i].1 == sorted[j].1 ensures order[i] < order[j] {
      assert Before(Counts(items), order[i], order[j]);
    }
  }
}
