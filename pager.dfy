/** Back-and-forward paging over a result list cut into fixed-size pages.
    The pages come from a batching iterator; pages already shown are kept on
    a "previous" stack and pages stepped back over on a "next" stack. */
module Pager {
  import opened PyText

  /** `itertools.batched(results, size)`, consumed in full: consecutive pages of
      `size` results, the last one possibly shorter. */
  function Batched<T>(results: seq<T>, size: int): (pages: seq<seq<T>>)
    requires size >= 1
    decreases |results|
  {
    if results == [] then []
    else if |results| <= size then [results]
    else [results[..size]] + Batched(results[size..], size)
  }

  /** The pages of `pages`, concatenated. */
  function Flatten<T>(pages: seq<seq<T>>): seq<T> {
    if pages == [] then [] else pages[0] + Flatten(pages[1..])
  }

  /** Putting the pages back together gives the results. */
  lemma {:induction false} BatchedFlatten<T>(results: seq<T>, size: int)
    requires size >= 1
    ensures Flatten(Batched(results, size)) == results
    decreases |results|
  {
    if |results| > size {
      BatchedFlatten(results[size..], size);
      assert results == results[..size] + results[size..];
    }
  }

  /** Page `i` is the slice of `size` results starting at `i * size`, cut short
      by the end of the results; it is never empty, and only the last page can
      hold fewer than `size` results. */
  lemma {:induction false} BatchedPage<T>(results: seq<T>, size: int, i: nat)
    requires size >= 1 && i < |Batched(results, size)|
    ensures i * size < |results|
    ensures Batched(results, size)[i] == results[i * size .. Min((i + 1) * size, |results|)]
    ensures 1 <= |Batched(results, size)[i]| <= size
    ensures i < |Batched(results, size)| - 1 ==> |Batched(results, size)[i]| == size
    decreases |results|
  {
    if i > 0 {
      var rest := results[size..];
      BatchedPage(rest, size, i - 1);
      assert (i - 1) * size + size == i * size;
      assert i * size + size == (i + 1) * size;
      assert Batched(results, size)[i] == Batched(rest, size)[i - 1];
    }
  }

  /** Every result lands on some page: there are `ceil(|results| / size)` pages. */
  lemma {:induction false} BatchedCount<T>(results: seq<T>, size: int)
    requires size >= 1
    ensures |Batched(results, size)| * size >= |results|
    ensures |results| > (|Batched(results, size)| - 1) * size
    decreases |results|
  {
    if |results| > size {
      var rest := results[size..];
      BatchedCount(rest, size);
      var n := |Batched(rest, size)|;
      assert (n + 1) * size == n * size + size;
      assert n * size == (n - 1) * size + size;
    }
  }

  function Min(a: int, b: int): int {
    if a < b then a else b
  }

  function Reversed<T>(s: seq<T>): (r: seq<T>)
    ensures |r| == |s|
    ensures forall i :: 0 <= i < |s| ==> r[i] == s[|s| - 1 - i]
  {
    if s == [] then [] else Reversed(s[1..]) + [s[0]]
  }

  /** The pager's state: the pages the iterator has not produced yet, and the
      two navigation caches, whose last element is the top. */
  datatype PagerState<T> = PagerState(remaining: seq<seq<T>>, prevPages: seq<seq<T>>, nextPages: seq<seq<T>>)

  /** The state is a position in `pages`: the pages shown so far, then the
      pages stepped back over (nearest first), then the unread ones. */
  predicate Consistent<T(==)>(s: PagerState<T>, pages: seq<seq<T>>) {
    s.prevPages + Reversed(s.nextPages) + s.remaining == pages
  }

  /** `next_page`: the top of the next stack if there is one, otherwise the
      iterator's next page; a page found is pushed on the previous stack. */
  function Next<T>(s: PagerState<T>): (step: (PagerState<T>, Option<seq<T>>))
    ensures step.1 == None <==> s.nextPages == [] && s.remaining == []
    ensures step.1 == None ==> step.0 == s
    ensures step.1.Some? ==> step.0.prevPages == s.prevPages + [step.1.value]
  {
    if s.nextPages != [] then
      var top := s.nextPages[|s.nextPages| - 1];
      (PagerState(s.remaining, s.prevPages + [top], s.nextPages[..|s.nextPages| - 1]), Some(top))
    else if s.remaining != [] then
      (PagerState(s.remaining[1..], s.prevPages + [s.remaining[0]], []), Some(s.remaining[0]))
    else (s, None)
  }

  /** `prev_page`: with two or more pages shown, the top one moves to the
      next stack and the one below it is returned; otherwise nothing changes. */
  function Prev<T>(s: PagerState<T>): (step: (PagerState<T>, Option<seq<T>>))
    ensures step.1.Some? <==> |s.prevPages| >= 2
    ensures step.1 == None ==> step.0 == s
    ensures step.1.Some? ==> step.0.prevPages + [s.prevPages[|s.prevPages| - 1]] == s.prevPages
    ensures step.1.Some? ==> step.1.value == step.0.prevPages[|step.0.prevPages| - 1]
  {
    if |s.prevPages| >= 2 then
      var top := s.prevPages[|s.prevPages| - 1];
      var below := s.prevPages[..|s.prevPages| - 1];
      (PagerState(s.remaining, below, s.nextPages + [top]), Some(below[|below| - 1]))
    else (s, None)
  }

  /** Reading forward walks `pages` in order: `next_page` returns the page just
      after the ones shown, and None exactly when all of them have been shown. */
  lemma NextInOrder<T>(s: PagerState<T>, pages: seq<seq<T>>)
    requires Consistent(s, pages)
    ensures Consistent(Next(s).0, pages)
    ensures Next(s).1 == None <==> |s.prevPages| == |pages|
    ensures Next(s).1.Some? ==> Next(s).1.value == pages[|s.prevPages|]
  {
    if s.nextPages != [] {
      var n := |s.nextPages|;
      var init := s.nextPages[..n - 1];
      assert s.nextPages == init + [s.nextPages[n - 1]];
      assert Reversed(s.nextPages) == [s.nextPages[n - 1]] + Reversed(init);
      assert pages[|s.prevPages|] == Reversed(s.nextPages)[0];
      assert Next(s).0.prevPages + Reversed(init) == s.prevPages + Reversed(s.nextPages);
    } else if s.remaining != [] {
      assert pages[|s.prevPages|] == s.remaining[0];
      assert s.remaining == [s.remaining[0]] + s.remaining[1..];
    }
  }

  /** Stepping back returns the page two below the end of the ones shown, and
      keeps the position consistent. */
  lemma PrevInOrder<T>(s: PagerState<T>, pages: seq<seq<T>>)
    requires Consistent(s, pages)
    ensures Consistent(Prev(s).0, pages)
    ensures Prev(s).1.Some? ==> Prev(s).1.value == pages[|s.prevPages| - 2]
  {
    if |s.prevPages| >= 2 {
      var top := s.prevPages[|s.prevPages| - 1];
      var below := s.prevPages[..|s.prevPages| - 1];
      assert s.prevPages == below + [top];
      assert Reversed(s.nextPages + [top]) == [top] + Reversed(s.nextPages);
      assert below + Reversed(s.nextPages + [top]) == s.prevPages + Reversed(s.nextPages);
      assert pages[|s.prevPages| - 2] == s.prevPages[|s.prevPages| - 2];
    }
  }

  /** Going back and then forward again returns the page that was on top
      before going back, and restores the state exactly. */
  lemma PrevThenNext<T>(s: PagerState<T>)
    requires Prev(s).1.Some?
    ensures Next(Prev(s).0) == (s, Some(s.prevPages[|s.prevPages| - 1]))
  {
    var top := s.prevPages[|s.prevPages| - 1];
    var below := s.prevPages[..|s.prevPages| - 1];
    assert below + [top] == s.prevPages;
    assert (s.nextPages + [top])[..|s.nextPages|] == s.nextPages;
  }

  /** Going forward to a page and then back returns the page that was on top
      before going forward. */
  lemma NextThenPrev<T>(s: PagerState<T>)
    requires s.prevPages != [] && Next(s).1.Some?
    ensures Prev(Next(s).0).1 == Some(s.prevPages[|s.prevPages| - 1])
  {
    var t := Next(s).0;
    assert t.prevPages[..|t.prevPages| - 1] == s.prevPages;
  }

  /** `Pager`, with the batching iterator's remaining pages held as a list. */
  class Pager<T(==)> {
    var pages: seq<seq<T>>
    var prevPages: seq<seq<T>>
    var nextPages: seq<seq<T>>
    /** All pages of the results, in order. */
    ghost var chunks: seq<seq<T>>

    function State(): PagerState<T>
      reads this
    {
      PagerState(pages, prevPages, nextPages)
    }

    ghost predicate Valid()
      reads this
    {
      Consistent(State(), chunks)
    }

    /** `Pager(results, page_size)`; `batched` refuses a size below 1. */
    constructor (results: seq<T>, pageSize: int := 25)
      requires pageSize >= 1
      ensures Valid()
      ensures chunks == Batched(results, pageSize)
      ensures pages == chunks && prevPages == [] && nextPages == []
    {
      pages := Batched(results, pageSize);
      prevPages := [];
      nextPages := [];
      chunks := Batched(results, pageSize);
    }

    method NextPage() returns (page: Option<seq<T>>)
      requires Valid()
      modifies this
      ensures Valid() && chunks == old(chunks)
      ensures (State(), page) == Next(old(State()))
    {
      NextInOrder(State(), chunks);
      var found: Option<seq<T>>;
      if nextPages != [] {
        found := Some(nextPages[|nextPages| - 1]);
        nextPages := nextPages[..|nextPages| - 1];
      } else if pages != [] {
        found := Some(pages[0]);
        pages := pages[1..];
      } else {
        found := None;
      }
      if found.Some? {
        prevPages := prevPages + [found.value];
      }
      page := found;
    }

    method PrevPage() returns (page: Option<seq<T>>)
      requires Valid()
      modifies this
      ensures Valid() && chunks == old(chunks)
      ensures (State(), page) == Prev(old(State()))
    {
      PrevInOrder(State(), chunks);
      if |prevPages| >= 2 {
        nextPages := nextPages + [prevPages[|prevPages| - 1]];
        prevPages := prevPages[..|prevPages| - 1];
        page := Some(prevPages[|prevPages| - 1]);
        return;
      }
      page := None;
    }
  }
}
