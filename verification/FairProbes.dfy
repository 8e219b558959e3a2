/** Dividing the time of a host listing fairly between its peers: each probe gets the remaining time over the
 probes left. Times are microseconds; only probes take time. */
module FairProbes {
  import opened Basics

  /** No share when there is nothing to divide by or the share rounds to nothing. */
  function FairShare(remaining: nat, probes: nat): Option<nat> {
    if probes == 0 || remaining / probes == 0 then None else Some(remaining / probes)
  }

  /** A share is positive and there is one for every probe left; there is none only if not even one unit is. */
  lemma FairShareFits(remaining: nat, probes: nat)
    ensures FairShare(remaining, probes).Some? ==>
      && probes > 0 && FairShare(remaining, probes).value > 0
      && FairShare(remaining, probes).value * probes <= remaining
    ensures FairShare(remaining, probes).None? <==> probes == 0 || remaining < probes
  {
    if probes > 0 { ShareFits(remaining, probes); }
  }

  lemma ShareFits(r: nat, n: nat)
    requires n > 0
    ensures (r / n) * n <= r < (r / n + 1) * n
    ensures r / n == 0 ==> r < n
  {
  }

  /** The time a cap allows. */
  function Allowed(cap: Option<nat>): nat {
    if cap.Some? then cap.value else 0
  }

  lemma AllowedIsShare(remaining: nat, probes: nat)
    requires probes > 0
    ensures Allowed(FairShare(remaining, probes)) == remaining / probes
  {
  }

  lemma TimesMonotone(a: nat, b: nat, n: nat)
    requires a <= b
    ensures a * n <= b * n
  {
    assert b * n == a * n + (b - a) * n;
  }

  lemma TimesLess(q: nat, n: nat)
    requires n > 0
    ensures q * n == q * (n - 1) + q
  {
  }

  /** A quotient is at least any number that, times the divisor, fits. */
  lemma QuotientAtLeast(r: nat, n: nat, q: nat)
    requires n > 0 && q * n <= r
    ensures q <= r / n
  {
    ShareFits(r, n);
    if r / n < q { TimesMonotone(r / n + 1, q, n); }
  }

  /** Spending no more than a share leaves every later probe at least that share. */
  lemma ShareNeverShrinks(r: nat, n: nat, spent: nat)
    requires n > 1 && spent <= r / n
    ensures spent <= r && r / n <= (r - spent) / (n - 1)
  {
    var q := r / n;
    ShareFits(r, n);
    TimesLess(q, n);
    QuotientAtLeast(r - spent, n - 1, q);
  }

  function Peers(selected: seq<bool>): (n: nat)
    ensures n <= |selected|
  {
    if selected == [] then 0 else (if selected[0] then 1 else 0) + Peers(selected[1..])
  }

  function Sum(xs: seq<nat>): nat {
    if xs == [] then 0 else Sum(xs[..|xs| - 1]) + xs[|xs| - 1]
  }

  lemma SumPush(xs: seq<nat>, x: nat)
    ensures Sum(xs + [x]) == Sum(xs) + x
  {
    assert (xs + [x])[..|xs|] == xs;
  }

  lemma PeersFrom(selected: seq<bool>, i: nat)
    requires i < |selected|
    ensures Peers(selected[i..]) == (if selected[i] then 1 else 0) + Peers(selected[i + 1..])
  {
    assert selected[i..][1..] == selected[i + 1..];
  }

  ghost predicate NeverShrinks(caps: seq<Option<nat>>) {
    forall i, j :: 0 <= i < j < |caps| ==> Allowed(caps[i]) <= Allowed(caps[j])
  }

  ghost predicate Between(caps: seq<Option<nat>>, low: nat, high: nat) {
    forall i :: 0 <= i < |caps| ==> low <= Allowed(caps[i]) <= high
  }

  /** Every cap is at least the whole budget divided by the number of probes. */
  ghost predicate EvenShare(caps: seq<Option<nat>>, budget: nat) {
    forall i :: 0 <= i < |caps| ==> budget / |caps| <= Allowed(caps[i])
  }

  lemma LowIsEven(caps: seq<Option<nat>>, budget: nat, high: nat)
    requires Between(caps, Allowed(FairShare(budget, |caps|)), high)
    ensures EvenShare(caps, budget)
  {
    if |caps| > 0 { AllowedIsShare(budget, |caps|); }
  }

  ghost predicate Within(spent: seq<nat>, caps: seq<Option<nat>>) {
    |spent| == |caps| && forall i :: 0 <= i < |caps| ==> spent[i] <= Allowed(caps[i])
  }

  lemma PushCap(caps: seq<Option<nat>>, spent: seq<nat>, cap: Option<nat>, used: nat, low: nat, high: nat)
    requires NeverShrinks(caps) && Between(caps, low, high) && Within(spent, caps)
    requires low <= high <= Allowed(cap) && used <= Allowed(cap)
    ensures NeverShrinks(caps + [cap]) && Between(caps + [cap], low, Allowed(cap))
    ensures Within(spent + [used], caps + [cap]) && Sum(spent + [used]) == Sum(spent) + used
  {
    SumPush(spent, used);
  }

  type Sharing = (nat, nat) -> Option<nat>

  /** A probe that keeps to its share leaves every later probe at least that share. */
  ghost predicate Lawful(share: Sharing, remaining: nat, probes: nat, used: nat) {
    probes > 0 && used <= Allowed(share(remaining, probes)) ==>
      && used <= remaining
      && (probes > 1 ==> Allowed(share(remaining, probes)) <= Allowed(share(remaining - used, probes - 1)))
  }

  lemma FairIsLawful(remaining: nat, probes: nat, used: nat)
    ensures Lawful(FairShare, remaining, probes, used)
  {
    if probes > 0 && used <= Allowed(FairShare(remaining, probes)) {
      AllowedIsShare(remaining, probes);
      if probes > 1 {
        ShareNeverShrinks(remaining, probes, used);
        AllowedIsShare(remaining - used, probes - 1);
      } else {
        ShareFits(remaining, probes);
      }
    }
  }

  /** The account after some probes: `low` is the first share, `high` the last cap given. */
  ghost predicate Fair(
    share: Sharing, caps: seq<Option<nat>>, spent: seq<nat>, low: nat, high: nat, remaining: nat, probes: nat,
    budget: nat)
  {
    && low <= high && (probes > 0 ==> high <= Allowed(share(remaining, probes)))
    && NeverShrinks(caps) && Between(caps, low, high) && Within(spent, caps)
    && Sum(spent) + remaining == budget
  }

  lemma FairStep(
    share: Sharing, caps: seq<Option<nat>>, spent: seq<nat>, low: nat, high: nat, remaining: nat, probes: nat,
    budget: nat, used: nat)
    requires Fair(share, caps, spent, low, high, remaining, probes, budget) && probes > 0
    requires used <= Allowed(share(remaining, probes)) && Lawful(share, remaining, probes, used)
    ensures used <= remaining
    ensures var cap := share(remaining, probes);
      Fair(share, caps + [cap], spent + [used], low, Allowed(cap), remaining - used, probes - 1, budget)
  {
    PushCap(caps, spent, share(remaining, probes), used, low, high);
  }

  /** A probe takes what it wants, up to its cap. */
  function Used(wants: nat, cap: Option<nat>): nat {
    if wants < Allowed(cap) then wants else Allowed(cap)
  }

  /** One call of the division: what was left, by how many probes it was divided, the cap and the time then used. */
  datatype Call = Call(left: nat, divisor: nat, cap: Option<nat>, used: nat)

  predicate CallOk(share: Sharing, c: Call, wants: nat, divisor: int) {
    c.divisor == divisor > 0 && c.cap == share(c.left, c.divisor) && c.used == Used(wants, c.cap)
  }

  /** Of `total` probes the k-th is capped by the share that `total - k` probes have in what is left, never by zero. */
  ghost predicate Divided(share: Sharing, calls: seq<Call>, wants: nat -> nat, total: nat) {
    forall k :: 0 <= k < |calls| ==> CallOk(share, calls[k], wants(k), total - k)
  }

  /** What is left is the budget, less the time used so far. */
  ghost predicate Drains(calls: seq<Call>, budget: nat, left: nat) {
    if calls == [] then left == budget
    else
      var last := calls[|calls| - 1];
      last.left == left + last.used && Drains(calls[..|calls| - 1], budget, last.left)
  }

  ghost predicate Recorded(calls: seq<Call>, caps: seq<Option<nat>>, spent: seq<nat>) {
    && |calls| == |caps| == |spent|
    && forall k :: 0 <= k < |calls| ==> caps[k] == calls[k].cap && spent[k] == calls[k].used
  }

  /** The calls behind the caps given and the time spent. */
  ghost predicate Accounted(
    share: Sharing, calls: seq<Call>, caps: seq<Option<nat>>, spent: seq<nat>, wants: nat -> nat, total: nat,
    budget: nat, left: nat)
  {
    Recorded(calls, caps, spent) && Divided(share, calls, wants, total) && Drains(calls, budget, left)
  }

  lemma DrainsMore(calls: seq<Call>, budget: nat, left: nat, c: Call)
    requires Drains(calls, budget, left) && c.left == left && c.used <= left
    ensures Drains(calls + [c], budget, left - c.used)
  {
    assert (calls + [c])[..|calls|] == calls;
  }

  lemma AccountedMore(
    share: Sharing, calls: seq<Call>, caps: seq<Option<nat>>, spent: seq<nat>, wants: nat -> nat, total: nat,
    budget: nat, left: nat, c: Call)
    requires Accounted(share, calls, caps, spent, wants, total, budget, left)
    requires c.left == left && c.used <= left && CallOk(share, c, wants(|calls|), total - |calls|)
    ensures Accounted(share, calls + [c], caps + [c.cap], spent + [c.used], wants, total, budget, left - c.used)
  {
    DrainsMore(calls, budget, left, c);
  }

  lemma AccountedLess(
    share: Sharing, calls: seq<Call>, caps: seq<Option<nat>>, spent: seq<nat>, wants: nat -> nat, total: nat,
    budget: nat, left: nat)
    requires Accounted(share, calls, caps, spent, wants, total, budget, left) && calls != []
    ensures var (n, c) := (|calls| - 1, calls[|calls| - 1]);
      && Accounted(share, calls[..n], caps[..n], spent[..n], wants, total, budget, c.left)
      && caps == caps[..n] + [c.cap] && spent == spent[..n] + [c.used] && c.left == left + c.used
      && CallOk(share, c, wants(n), total - n)
  {
  }

  /** In a lawful division caps never shrink, none is below the first share, and the time spent is within the budget. */
  lemma {:induction false} CallsFair(
    share: Sharing, calls: seq<Call>, caps: seq<Option<nat>>, spent: seq<nat>, wants: nat -> nat, total: nat,
    budget: nat, left: nat)
    returns (high: nat)
    requires forall r, n, used :: Lawful(share, r, n, used)
    requires Accounted(share, calls, caps, spent, wants, total, budget, left) && |calls| <= total
    ensures Fair(share, caps, spent, Allowed(share(budget, total)), high, left, total - |calls|, budget)
    decreases |calls|
  {
    if calls == [] {
      high := Allowed(share(budget, total));
    } else {
      var n, c := |calls| - 1, calls[|calls| - 1];
      AccountedLess(share, calls, caps, spent, wants, total, budget, left);
      var before := CallsFair(share, calls[..n], caps[..n], spent[..n], wants, total, budget, c.left);
      assert Lawful(share, c.left, total - n, c.used);
      FairStep(share, caps[..n], spent[..n], Allowed(share(budget, total)), before, c.left, total - n, budget, c.used);
      high := Allowed(c.cap);
    }
  }

  lemma PeersFromStart(selected: seq<bool>)
    ensures Peers(selected[0..]) == Peers(selected) && Peers(selected[|selected|..]) == 0
  {
    assert selected[0..] == selected;
  }

  /**
   The probe loop over a page of hosts, `selected[i]` telling a peer from this host. `wants(k)` is the time the k-th
   probe would take; it is cut off at its cap, and a probe without a cap is not made.
   */
  method ProbeLoop(share: Sharing, selected: seq<bool>, budget: nat, wants: nat -> nat)
    returns (caps: seq<Option<nat>>, spent: seq<nat>, ghost calls: seq<Call>, ghost left: nat, ghost high: nat)
    requires forall r, n, used :: Lawful(share, r, n, used)
    ensures |caps| == Peers(selected) && Within(spent, caps) && NeverShrinks(caps)
    ensures Between(caps, Allowed(share(budget, |caps|)), high)
    ensures Sum(spent) <= budget
    ensures Accounted(share, calls, caps, spent, wants, Peers(selected), budget, left)
  {
    var probes: nat := Peers(selected);
    var remaining: nat := budget;
    caps, spent, calls := [], [], [];
    var i := 0;
    PeersFromStart(selected);
    while i < |selected|
      invariant 0 <= i <= |selected|
      invariant |calls| + probes == Peers(selected) && probes == Peers(selected[i..])
      invariant Accounted(share, calls, caps, spent, wants, Peers(selected), budget, remaining)
    {
      PeersFrom(selected, i);
      if selected[i] {
        var cap := share(remaining, probes);
        var used := Used(wants(|caps|), cap);
        assert Lawful(share, remaining, probes, used);
        ghost var call := Call(remaining, probes, cap, used);
        AccountedMore(share, calls, caps, spent, wants, Peers(selected), budget, remaining, call);
        calls := calls + [call];
        probes := probes - 1;
        caps, spent := caps + [cap], spent + [used];
        remaining := remaining - used;
      }
      i := i + 1;
    }
    left := remaining;
    high := CallsFair(share, calls, caps, spent, wants, Peers(selected), budget, left);
  }

  /** Later caps are no smaller, each is at least the even share of the whole budget, and all fit in it together. */
  method ProbeHosts(selected: seq<bool>, budget: nat, wants: nat -> nat)
    returns (caps: seq<Option<nat>>, spent: seq<nat>, ghost calls: seq<Call>, ghost left: nat)
    ensures |caps| == Peers(selected) && Within(spent, caps)
    ensures NeverShrinks(caps)
    ensures EvenShare(caps, budget)
    ensures Sum(spent) <= budget
    ensures Accounted(FairShare, calls, caps, spent, wants, Peers(selected), budget, left)
  {
    forall r, n, used ensures Lawful(FairShare, r, n, used) { FairIsLawful(r, n, used); }
    ghost var high;
    caps, spent, calls, left, high := ProbeLoop(FairShare, selected, budget, wants);
    LowIsEven(caps, budget, high);
  }
}
