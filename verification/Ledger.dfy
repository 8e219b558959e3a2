/** Counting and adding up items that carry a size, for an inventory kept under limits. */
module Ledger {
  import opened Basics

  /** How many items, their sizes together, and the size of the largest. */
  datatype Load = Load(count: nat, bytes: nat, largest: nat)

  function Plus(a: Load, b: Load): Load {
    Load(a.count + b.count, a.bytes + b.bytes, if a.largest < b.largest then b.largest else a.largest)
  }

  function LoadOf<T>(size: T -> nat, items: seq<T>): Load {
    if items == [] then Load(0, 0, 0)
    else Plus(Load(1, size(items[0]), size(items[0])), LoadOf(size, items[1..]))
  }

  /** What the count and the largest size say about the items. */
  lemma {:induction false} LoadMeans<T>(size: T -> nat, items: seq<T>, limit: nat)
    ensures LoadOf(size, items).count == |items|
    ensures LoadOf(size, items).largest <= limit <==> forall i :: 0 <= i < |items| ==> size(items[i]) <= limit
  {
    if items != [] {
      LoadMeans(size, items[1..], limit);
      if forall i :: 0 <= i < |items| ==> size(items[i]) <= limit {
        forall i | 0 <= i < |items| - 1 ensures size(items[1..][i]) <= limit { assert items[1..][i] == items[i + 1]; }
      } else {
        var i :| 0 <= i < |items| && size(items[i]) > limit;
        assert i > 0 ==> items[1..][i - 1] == items[i];
      }
    }
  }

  lemma PlusNothing(l: Load)
    ensures Plus(Load(0, 0, 0), l) == l
  {
  }

  lemma PlusAssociates(a: Load, b: Load, c: Load)
    ensures Plus(Plus(a, b), c) == Plus(a, Plus(b, c))
  {
  }

  lemma {:induction false} LoadParts<T>(size: T -> nat, a: seq<T>, b: seq<T>)
    ensures LoadOf(size, a + b) == Plus(LoadOf(size, a), LoadOf(size, b))
  {
    if a == [] {
      assert a + b == b;
      PlusNothing(LoadOf(size, b));
    } else {
      PlusAssociates(Load(1, size(a[0]), size(a[0])), LoadOf(size, a[1..]), LoadOf(size, b));
      LoadParts(size, a[1..], b);
      TailJoin(a, b);
    }
  }

  lemma LoadOne<T>(size: T -> nat, item: T)
    ensures LoadOf(size, [item]) == Load(1, size(item), size(item))
  {
  }

  lemma LoadPush<T>(size: T -> nat, items: seq<T>, item: T)
    ensures LoadOf(size, items + [item]) == Plus(LoadOf(size, items), Load(1, size(item), size(item)))
  {
    LoadParts(size, items, [item]);
    LoadOne(size, item);
  }

  lemma PlusCommutes(a: Load, b: Load)
    ensures Plus(a, b) == Plus(b, a)
  {
  }

  lemma SplitAt<T>(items: seq<T>, k: nat)
    requires k < |items|
    ensures items == items[..k] + ([items[k]] + items[k + 1..])
  {
  }

  /** Taking one item out of the middle. */
  lemma LoadWithout<T>(size: T -> nat, items: seq<T>, k: nat)
    requires k < |items|
    ensures LoadOf(size, items)
         == Plus(LoadOf(size, [items[k]]), LoadOf(size, items[..k] + items[k + 1..]))
  {
    var a, x, b := items[..k], [items[k]], items[k + 1..];
    SplitAt(items, k);
    LoadParts(size, a, x + b);
    LoadParts(size, x, b);
    LoadParts(size, a, b);
    PlusAssociates(LoadOf(size, a), LoadOf(size, x), LoadOf(size, b));
    PlusCommutes(LoadOf(size, a), LoadOf(size, x));
    PlusAssociates(LoadOf(size, x), LoadOf(size, a), LoadOf(size, b));
  }

  lemma MultisetWithout<T>(items: seq<T>, k: nat)
    requires k < |items|
    ensures multiset(items) == multiset{items[k]} + multiset(items[..k] + items[k + 1..])
  {
    SplitAt(items, k);
  }

  /** The order of the items does not matter. */
  lemma {:induction false} LoadPermuted<T>(size: T -> nat, a: seq<T>, b: seq<T>)
    requires multiset(a) == multiset(b)
    ensures LoadOf(size, a) == LoadOf(size, b)
    decreases |a|
  {
    assert |a| == |multiset(a)| == |multiset(b)| == |b|;
    if a != [] {
      var k := FindIn(a, b);
      LoadPermuted(size, a[1..], b[..k] + b[k + 1..]);
      LoadWithout(size, b, k);
      LoadOne(size, a[0]);
    }
  }

  lemma Cancel<T>(x: T, m: multiset<T>, n: multiset<T>)
    requires multiset{x} + m == multiset{x} + n
    ensures m == n
  {
    assert m == multiset{x} + m - multiset{x};
    assert n == multiset{x} + n - multiset{x};
  }

  /** The first item of one permutation is somewhere in the other, and the rest are permutations again. */
  lemma FindIn<T>(a: seq<T>, b: seq<T>) returns (k: nat)
    requires a != [] && multiset(a) == multiset(b)
    ensures k < |b| && b[k] == a[0] && multiset(a[1..]) == multiset(b[..k] + b[k + 1..])
  {
    assert a[0] in multiset(b);
    k :| 0 <= k < |b| && b[k] == a[0];
    MultisetWithout(a, 0);
    MultisetWithout(b, k);
    JoinNothing(a[1..]);
    Cancel(a[0], multiset(a[..0] + a[1..]), multiset(b[..k] + b[k + 1..]));
  }

  function Mapped<T, U>(f: T -> U, items: seq<T>): seq<U> {
    if items == [] then [] else [f(items[0])] + Mapped(f, items[1..])
  }

  lemma {:induction false} MappedParts<T, U>(f: T -> U, a: seq<T>, b: seq<T>)
    ensures Mapped(f, a + b) == Mapped(f, a) + Mapped(f, b)
  {
    if a == [] {
      assert a + b == b;
    } else {
      MappedParts(f, a[1..], b);
      TailJoin(a, b);
      Group2([f(a[0])], Mapped(f, a[1..]), Mapped(f, b));
    }
  }

  lemma MappedOne<T, U>(f: T -> U, item: T)
    ensures Mapped(f, [item]) == [f(item)]
  {
  }
}
