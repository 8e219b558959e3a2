/**
 Greedy packing of items into a page under a byte budget, for any items and any item sizes: a page costs
 its items, a separator between neighbours, and a truncation flag that is one byte shorter once set.
 */
module Packing {
  import opened Basics

  datatype Page<+T> = Page(items: seq<T>, truncated: bool)

  function Total<T>(size: T -> nat, items: seq<T>): nat {
    if items == [] then 0
    else size(items[0]) + if |items| == 1 then 0 else 1 + Total(size, items[1..])
  }

  /** `true` is one byte shorter than `false`. */
  function Load<T>(size: T -> nat, p: Page<T>): nat {
    Total(size, p.items) + if p.truncated then 4 else 5
  }

  lemma {:induction false} SubsequenceTotal<T>(size: T -> nat, xs: seq<T>, ys: seq<T>)
    requires Subsequence(xs, ys)
    ensures Total(size, xs) <= Total(size, ys)
    decreases |ys|
  {
    if xs != [] {
      if xs[0] == ys[0] {
        SubsequenceTotal(size, xs[1..], ys[1..]);
        SubsequenceLength(xs[1..], ys[1..]);
      } else {
        SubsequenceTotal(size, xs, ys[1..]);
      }
    }
  }

  // ---- Greedy packing ----

  /** Offer each item in turn to the page; one that does not fit is dropped and marks it truncated. */
  function Pack<T>(size: T -> nat, items: seq<T>, page: Page<T>, room: int): Page<T>
    decreases |items|
  {
    if items == [] then page
    else
      var tried := page.(items := page.items + [items[0]]);
      Pack(size, items[1..], if Load(size, tried) <= room then tried else page.(truncated := true), room)
  }

  function Fit<T>(size: T -> nat, p: Page<T>, room: int): Page<T> {
    Pack(size, p.items, Page([], p.truncated), room)
  }

  lemma {:induction false} PackKeepsOrder<T>(size: T -> nat, items: seq<T>, page: Page<T>, room: int)
    ensures var r := Pack(size, items, page, room);
      && page.items <= r.items
      && Subsequence(r.items[|page.items|..], items)
      && (r.truncated <==> page.truncated || |r.items| < |page.items| + |items|)
    decreases |items|
  {
    if items != [] {
      var tried := page.(items := page.items + [items[0]]);
      var next := if Load(size, tried) <= room then tried else page.(truncated := true);
      var r := Pack(size, items[1..], next, room);
      PackKeepsOrder(size, items[1..], next, room);
      var kept := r.items[|page.items|..];
      var later := r.items[|next.items|..];
      SubsequenceLength(later, items[1..]);
      if Load(size, tried) <= room {
        assert kept[0] == tried.items[|page.items|] == items[0];
        assert kept[1..] == later;
      } else {
        SubsequenceSkips(kept, items[1..], items[0]);
        assert [items[0]] + items[1..] == items;
      }
    }
  }

  /** Marking a page truncated only makes it shorter, so accepted items stay accepted. */
  lemma {:induction false} PackWithin<T>(size: T -> nat, items: seq<T>, page: Page<T>, room: int)
    requires page.items == [] || Load(size, page) <= room
    ensures var r := Pack(size, items, page, room); r.items == [] || Load(size, r) <= room
    decreases |items|
  {
    if items != [] {
      var tried := page.(items := page.items + [items[0]]);
      PackWithin(size, items[1..], if Load(size, tried) <= room then tried else page.(truncated := true), room);
    }
  }

  /** What a fitted page holds: an in-order part of the input, within the budget, flagged exactly. */
  lemma FitMeaning<T>(size: T -> nat, p: Page<T>, room: int)
    ensures Subsequence(Fit(size, p, room).items, p.items)
    ensures Fit(size, p, room).truncated <==> p.truncated || |Fit(size, p, room).items| < |p.items|
    ensures Fit(size, p, room).items == [] || Load(size, Fit(size, p, room)) <= room
  {
    PackKeepsOrder(size, p.items, Page([], p.truncated), room);
    PackWithin(size, p.items, Page([], p.truncated), room);
    assert Fit(size, p, room).items[0..] == Fit(size, p, room).items;
  }

  lemma {:induction false} PackAll<T>(size: T -> nat, items: seq<T>, page: Page<T>, room: int)
    requires Load(size, page.(items := page.items + items)) <= room
    ensures Pack(size, items, page, room) == page.(items := page.items + items)
    decreases |items|
  {
    if items == [] {
      assert page.items + items == page.items;
    } else {
      var tried := page.(items := page.items + [items[0]]);
      assert page.items + items == tried.items + items[1..];
      SubsequenceRefl(tried.items);
      SubsequenceAppend(tried.items, tried.items, [], items[1..]);
      assert tried.items + [] == tried.items;
      SubsequenceTotal(size, tried.items, tried.items + items[1..]);
      PackAll(size, items[1..], tried, room);
    }
  }

  /** A page already within the budget is kept whole. */
  lemma FitAll<T>(size: T -> nat, p: Page<T>, room: int)
    requires Load(size, p) <= room
    ensures Fit(size, p, room) == p
  {
    assert [] + p.items == p.items;
    PackAll(size, p.items, Page([], p.truncated), room);
  }

  /** Nothing kept means nothing could have been kept: no item blocks a later one. */
  lemma {:induction false} PackEmpty<T>(size: T -> nat, items: seq<T>, page: Page<T>, room: int, i: nat)
    requires page.items == [] && Pack(size, items, page, room).items == [] && i < |items|
    ensures Load(size, Page([items[i]], false)) > room
    decreases |items|
  {
    var tried := page.(items := page.items + [items[0]]);
    assert tried.items == [items[0]];
    if Load(size, tried) <= room {
      PackKeepsOrder(size, items[1..], tried, room);
      assert false;
    }
    if i > 0 { PackEmpty(size, items[1..], page.(truncated := true), room, i - 1); }
  }

  /** Something kept means some item fits alone, at the latest once the page is marked truncated. */
  lemma {:induction false} PackSome<T>(size: T -> nat, items: seq<T>, page: Page<T>, room: int) returns (i: nat)
    requires page.items == [] && Pack(size, items, page, room).items != []
    ensures i < |items| && Load(size, Page([items[i]], true)) <= room
    decreases |items|
  {
    var tried := page.(items := page.items + [items[0]]);
    assert tried.items == [items[0]];
    if Load(size, tried) <= room {
      i := 0;
    } else {
      var j := PackSome(size, items[1..], page.(truncated := true), room);
      i := j + 1;
    }
  }

  /** Greedy packing by a test alone: each item in turn is kept exactly if the page with it passes. */
  function Greedy<T>(accepts: Page<T> -> bool, items: seq<T>, page: Page<T>): Page<T>
    decreases |items|
  {
    if items == [] then page
    else
      var tried := Page(page.items + [items[0]], page.truncated);
      Greedy(accepts, items[1..], if accepts(tried) then tried else Page(page.items, true))
  }

  /** Packing under a load is packing by the test that the load bounds. */
  lemma {:induction false} PackIsGreedy<T(!new)>(
    size: T -> nat, room: int, accepts: Page<T> -> bool, items: seq<T>, page: Page<T>)
    requires forall p: Page<T> :: accepts(p) <==> p.items != [] && Load(size, p) <= room
    ensures Pack(size, items, page, room) == Greedy(accepts, items, page)
    decreases |items|
  {
    if items != [] {
      var tried := page.(items := page.items + [items[0]]);
      PackIsGreedy(size, room, accepts, items[1..],
                   if Load(size, tried) <= room then tried else page.(truncated := true));
    }
  }

  lemma PackNext<T>(size: T -> nat, items: seq<T>, n: nat, page: Page<T>, room: int)
    requires n < |items|
    ensures var tried := Page(page.items + [items[n]], page.truncated);
      && (Load(size, tried) <= room ==>
            Pack(size, items[n..], page, room) == Pack(size, items[n + 1..], tried, room))
      && (Load(size, tried) > room ==>
            Pack(size, items[n..], page, room) == Pack(size, items[n + 1..], Page(page.items, true), room))
  {
    SliceFirst(items, n);
  }

  lemma Popped<T>(items: seq<T>, x: T)
    ensures (items + [x])[..|items + [x]| - 1] == items
  {
  }

  /** The packing loop: push, test the page as it now stands, and take the item back if it overflows. */
  method PackLoop<T(!new)>(page: Page<T>, accepts: Page<T> -> bool, ghost size: T -> nat, ghost room: int)
    returns (output: Page<T>)
    requires forall p: Page<T> :: accepts(p) <==> p.items != [] && Load(size, p) <= room
    ensures output == Fit(size, page, room)
  {
    output := Page([], page.truncated);
    for n := 0 to |page.items|
      invariant Pack(size, page.items[n..], output, room) == Fit(size, page, room)
    {
      PackNext(size, page.items, n, output, room);
      Popped(output.items, page.items[n]);
      output := output.(items := output.items + [page.items[n]]);
      if !accepts(output) {
        output := Page(output.items[..|output.items| - 1], true);
      }
    }
    assert page.items[|page.items|..] == [];
  }
}
