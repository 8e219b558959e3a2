/** Small shared vocabulary: optional values, fallible results, control characters and in-order subsequences. */
module Basics {

  /** A POSIX path from the root. */
  predicate Absolute(path: string) {
    path != "" && path[0] == '/'
  }

  newtype Byte = x: int | 0 <= x < 256

  datatype Option<+T> = None | Some(value: T)

  datatype Result<+T, +E> = Success(value: T) | Failure(error: E)

  /** The Unicode control characters. */
  predicate Control(c: char) {
    c as int < 0x20 || 0x7f <= c as int < 0xa0
  }

  predicate ControlFree(s: string) {
    forall i :: 0 <= i < |s| ==> !Control(s[i])
  }

  /** Every element of `xs` occurs in `ys`, in the same order and at its own position. */
  predicate Subsequence<T(==)>(xs: seq<T>, ys: seq<T>)
    decreases |ys|
  {
    if xs == [] then true
    else if ys == [] then false
    else if xs[0] == ys[0] then Subsequence(xs[1..], ys[1..])
    else Subsequence(xs, ys[1..])
  }

  lemma {:induction false} SubsequenceDropsHead<T>(x: T, xs: seq<T>, ys: seq<T>)
    requires Subsequence([x] + xs, ys)
    ensures Subsequence(xs, ys)
    decreases |ys|, 0
  {
    assert ([x] + xs)[1..] == xs;
    if x == ys[0] {
      SubsequenceSkips(xs, ys[1..], ys[0]);
      assert [ys[0]] + ys[1..] == ys;
    } else {
      SubsequenceDropsHead(x, xs, ys[1..]);
      SubsequenceSkips(xs, ys[1..], ys[0]);
      assert [ys[0]] + ys[1..] == ys;
    }
  }

  lemma {:induction false} SubsequenceSkips<T>(xs: seq<T>, ys: seq<T>, y: T)
    requires Subsequence(xs, ys)
    ensures Subsequence(xs, [y] + ys)
    decreases |ys|, 1
  {
    assert ([y] + ys)[1..] == ys;
    if xs != [] && xs[0] == y {
      assert [xs[0]] + xs[1..] == xs;
      SubsequenceDropsHead(xs[0], xs[1..], ys);
    }
  }

  lemma {:induction false} SubsequenceRefl<T>(xs: seq<T>)
    ensures Subsequence(xs, xs)
  {
    if xs != [] { SubsequenceRefl(xs[1..]); }
  }

  lemma {:induction false} SubsequenceAppend<T>(xs: seq<T>, ys: seq<T>, us: seq<T>, vs: seq<T>)
    requires Subsequence(xs, ys) && Subsequence(us, vs)
    ensures Subsequence(xs + us, ys + vs)
    decreases |ys|
  {
    if ys == [] {
      assert xs + us == us && ys + vs == vs;
    } else {
      assert (ys + vs)[1..] == ys[1..] + vs && [ys[0]] + (ys[1..] + vs) == ys + vs;
      if xs != [] && xs[0] == ys[0] {
        assert (xs + us)[1..] == xs[1..] + us;
        SubsequenceAppend(xs[1..], ys[1..], us, vs);
      } else {
        SubsequenceAppend(xs, ys[1..], us, vs);
        SubsequenceSkips(xs + us, ys[1..] + vs, ys[0]);
      }
    }
  }

  lemma {:induction false} SubsequenceTrans<T>(xs: seq<T>, ys: seq<T>, zs: seq<T>)
    requires Subsequence(xs, ys) && Subsequence(ys, zs)
    ensures Subsequence(xs, zs)
    decreases |zs|
  {
    if xs != [] {
      if ys[0] == zs[0] {
        if xs[0] == ys[0] {
          SubsequenceTrans(xs[1..], ys[1..], zs[1..]);
        } else {
          SubsequenceTrans(xs, ys[1..], zs[1..]);
          SubsequenceSkips(xs, zs[1..], zs[0]);
          assert [zs[0]] + zs[1..] == zs;
        }
      } else {
        SubsequenceTrans(xs, ys, zs[1..]);
        SubsequenceSkips(xs, zs[1..], zs[0]);
        assert [zs[0]] + zs[1..] == zs;
      }
    }
  }

  lemma {:induction false} SubsequenceLength<T>(xs: seq<T>, ys: seq<T>)
    requires Subsequence(xs, ys)
    ensures |xs| <= |ys|
    ensures |xs| == |ys| ==> xs == ys
    decreases |ys|
  {
    if xs != [] {
      if xs[0] == ys[0] {
        SubsequenceLength(xs[1..], ys[1..]);
        assert [xs[0]] + xs[1..] == xs && [ys[0]] + ys[1..] == ys;
      } else {
        SubsequenceLength(xs, ys[1..]);
      }
    }
  }

  lemma {:induction false} SubsequenceMember<T>(xs: seq<T>, ys: seq<T>, x: T)
    requires Subsequence(xs, ys) && x in xs
    ensures x in ys
    decreases |ys|
  {
    if xs[0] == ys[0] {
      if x != xs[0] { SubsequenceMember(xs[1..], ys[1..], x); }
    } else {
      SubsequenceMember(xs, ys[1..], x);
    }
  }

  // Regrouping of concatenations, kept apart from the recursive functions.

  lemma Group2<T>(a: seq<T>, b: seq<T>, c: seq<T>)
    ensures a + b + c == a + (b + c)
  {
  }

  lemma Group3<T>(a: seq<T>, b: seq<T>, c: seq<T>, d: seq<T>)
    ensures a + b + c + d == a + (b + c + d)
  {
  }

  lemma Group4<T>(a: seq<T>, b: seq<T>, c: seq<T>, d: seq<T>)
    ensures a + b + c + d == a + (b + (c + d))
  {
  }

  lemma Group5<T>(a: seq<T>, b: seq<T>, c: seq<T>, d: seq<T>, e: seq<T>)
    ensures a + b + c + d + e == a + b + (c + d + e)
  {
  }

  lemma Rejoin<T>(a: seq<T>, s: seq<T>, n: nat)
    requires n <= |s|
    ensures a + s[..n] + s[n..] == a + s
  {
  }

  lemma JoinNothing<T>(a: seq<T>)
    ensures [] + a == a && a + [] == a
  {
  }

  lemma TailJoin<T>(a: seq<T>, b: seq<T>)
    requires a != []
    ensures (a + b)[1..] == a[1..] + b && (a + b)[0] == a[0]
  {
  }

  lemma SliceFirst<T>(s: seq<T>, n: nat)
    requires n < |s|
    ensures s[n..] != [] && s[n..][0] == s[n] && s[n..][1..] == s[n + 1..]
  {
  }

  lemma DropDrop<T>(s: seq<T>, m: nat, n: nat)
    requires m + n <= |s|
    ensures s[m..][n..] == s[m + n..]
  {
  }

  lemma HeadTail<T>(s: seq<T>)
    requires s != []
    ensures [s[0]] + s[1..] == s
  {
  }

  lemma OneElement<T>(s: seq<T>)
    requires |s| == 1
    ensures s == [s[0]]
  {
  }

  /** A prefix of a concatenation. */
  lemma CutLeft<T>(a: seq<T>, b: seq<T>, k: nat)
    requires k <= |a|
    ensures (a + b)[..k] == a[..k]
  {
  }

  lemma CutRight<T>(a: seq<T>, b: seq<T>, k: nat)
    requires |a| <= k <= |a| + |b|
    ensures (a + b)[..k] == a + b[..k - |a|]
  {
  }
}
