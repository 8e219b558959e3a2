/**
 Committing the selected answers: the store reads each delivery record again, drops candidates whose record no longer
 allows an offer, records the attempt on the others, and the page of what was offered is fitted a second time.
 */
module AnswerCommit {
  import opened Basics
  import opened Json
  import opened Packing
  import opened AnswerRecords
  import opened AnswerReply
  import opened AnswerGuarantees
  import opened AnswerSelection

  /** Delivery records by answer id; a record that does not decode is absent. */
  type Outbox = map<string, Delivery>

  datatype Decision = Skip | Keep | Record(delivery: Delivery) | Overflow

  /** What becomes of one candidate. `ours` says that a record is of this schema, this answer and this destination. */
  function Decide(outbox: Outbox, ours: Delivery -> bool, c: Offer, at: string): Decision {
    if c.answer.id !in outbox || !ours(outbox[c.answer.id]) then Skip
    else
      var stored := outbox[c.answer.id];
      if stored.state == Offered && c.delivery == stored then Keep
      else if stored.state != Queued then Skip
      else if stored.attempts >= U64_MAX then Overflow
      else Record(Attempted(stored, at))
  }

  function Answers(items: seq<Offer>): seq<Answer> {
    seq(|items|, i requires 0 <= i < |items| => items[i].answer)
  }

  /** Every offer is in the outbox, as offered. */
  ghost predicate Booked(items: seq<Offer>, outbox: Outbox) {
    forall i :: 0 <= i < |items| ==>
      && items[i].answer.id in outbox && outbox[items[i].answer.id] == items[i].delivery
      && items[i].delivery.state == Offered
  }

  ghost predicate Mentions(items: seq<Offer>, id: string) {
    exists i :: 0 <= i < |items| && items[i].answer.id == id
  }

  /** Only the records of offered answers changed. */
  ghost predicate OnlyOffered(before: Outbox, after: Outbox, items: seq<Offer>) {
    after.Keys == before.Keys && forall id :: id in before && after[id] != before[id] ==> Mentions(items, id)
  }

  /** The record a candidate was prepared from is still the one in the outbox. */
  ghost predicate Current(outbox: Outbox, ours: Delivery -> bool, c: Offer, at: string) {
    && c.answer.id in outbox && ours(outbox[c.answer.id])
    && var stored := outbox[c.answer.id];
       || (stored.state == Offered && c.delivery == stored)
       || (stored.state == Queued && stored.attempts < U64_MAX && c.delivery == Attempted(stored, at))
  }

  ghost predicate AllCurrent(outbox: Outbox, ours: Delivery -> bool, items: seq<Offer>, at: string) {
    Distinct(items) && forall i :: 0 <= i < |items| ==> Current(outbox, ours, items[i], at)
  }

  lemma BookedKeep(before: Outbox, after: Outbox, out: seq<Offer>, c: Offer)
    requires Booked(out, after) && OnlyOffered(before, after, out)
    requires c.answer.id in after && after[c.answer.id] == c.delivery && c.delivery.state == Offered
    ensures Booked(out + [c], after) && OnlyOffered(before, after, out + [c])
  {
    forall id | id in before && after[id] != before[id] ensures Mentions(out + [c], id) {
      var i :| 0 <= i < |out| && out[i].answer.id == id;
      assert (out + [c])[i].answer.id == id;
    }
  }

  lemma BookedRecord(before: Outbox, after: Outbox, out: seq<Offer>, c: Offer)
    requires Booked(out, after) && OnlyOffered(before, after, out)
    requires c.answer.id in after && after[c.answer.id].state == Queued && c.delivery.state == Offered
    ensures Booked(out + [c], after[c.answer.id := c.delivery])
    ensures OnlyOffered(before, after[c.answer.id := c.delivery], out + [c])
  {
    var all, next := out + [c], after[c.answer.id := c.delivery];
    assert all[|out|] == c;
    forall i | 0 <= i < |out| ensures out[i].answer.id != c.answer.id {
      assert after[out[i].answer.id] == out[i].delivery;
    }
    forall id | id in before && next[id] != before[id] ensures Mentions(all, id) {
      if id == c.answer.id {
        assert all[|out|].answer.id == id;
      } else {
        var i :| 0 <= i < |out| && out[i].answer.id == id;
        assert all[i].answer.id == id;
      }
    }
  }

  lemma AnswersPush(items: seq<Offer>, x: Offer)
    ensures Answers(items + [x]) == Answers(items) + [x.answer]
  {
  }

  /** Offering one more answer: `done` stands for the candidates handled so far. */
  lemma OfferedMore(out: seq<Offer>, done: seq<Offer>, x: Offer, c: Offer)
    requires Subsequence(Answers(out), Answers(done)) && x.answer == c.answer
    ensures Subsequence(Answers(out + [x]), Answers(done + [c]))
  {
    AnswersPush(out, x);
    AnswersPush(done, c);
    SubsequenceRefl([c.answer]);
    SubsequenceAppend(Answers(out), Answers(done), [c.answer], [c.answer]);
  }

  lemma SkippedMore(out: seq<Offer>, done: seq<Offer>, c: Offer)
    requires Subsequence(Answers(out), Answers(done))
    ensures Subsequence(Answers(out), Answers(done + [c]))
  {
    AnswersPush(done, c);
    SubsequenceAppend(Answers(out), Answers(done), [], [c.answer]);
    JoinNothing(Answers(out));
  }

  // ---- What the commit decides, answer by answer ----

  /** The record of this answer is queued and can take one more attempt. */
  predicate Recordable(outbox: Outbox, ours: Delivery -> bool, id: string) {
    id in outbox && ours(outbox[id]) && outbox[id].state == Queued && outbox[id].attempts < U64_MAX
  }

  /** The outbox after the commit: an attempt is recorded wherever a candidate asks for a recordable answer. */
  ghost function Settled(outbox: Outbox, ours: Delivery -> bool, items: seq<Offer>, at: string): Outbox {
    map id | id in outbox ::
      if Recordable(outbox, ours, id) && Mentions(items, id) then Attempted(outbox[id], at) else outbox[id]
  }

  /** What becomes of candidate `i`; a second one for the same answer finds the record that the first one wrote. */
  ghost function Verdict(outbox: Outbox, ours: Delivery -> bool, items: seq<Offer>, i: nat, at: string): Decision
    requires i < |items|
  {
    var first := Decide(outbox, ours, items[i], at);
    if first.Record? && Mentions(items[..i], items[i].answer.id) then
      Decide(outbox[items[i].answer.id := first.delivery], ours, items[i], at)
    else first
  }

  ghost function Verdicts(outbox: Outbox, ours: Delivery -> bool, items: seq<Offer>, at: string): (ds: seq<Decision>)
    ensures |ds| == |items|
  {
    seq(|items|, i requires 0 <= i < |items| => Verdict(outbox, ours, items, i, at))
  }

  /** The offer a verdict makes of its candidate. */
  function Made(d: Decision, c: Offer): seq<Offer> {
    match d
    case Keep => [c]
    case Record(delivery) => [c.(delivery := delivery)]
    case _ => []
  }

  /** The offers that verdicts make of their candidates, in order. */
  ghost function Offers(ds: seq<Decision>, items: seq<Offer>): seq<Offer>
    requires |ds| == |items|
  {
    if ds == [] then []
    else
      var n := |ds| - 1;
      Offers(ds[..n], items[..n]) + Made(ds[n], items[n])
  }

  /** No record that a candidate asks for has exhausted its attempts. */
  ghost predicate NoneSpent(outbox: Outbox, ours: Delivery -> bool, items: seq<Offer>, at: string) {
    forall i :: 0 <= i < |items| ==> !Decide(outbox, ours, items[i], at).Overflow?
  }

  lemma OffersPush(ds: seq<Decision>, items: seq<Offer>, d: Decision, c: Offer)
    requires |ds| == |items|
    ensures Offers(ds + [d], items + [c]) == Offers(ds, items) + Made(d, c)
  {
    assert (ds + [d])[..|ds|] == ds && (items + [c])[..|ds|] == items;
  }

  lemma TakeNext<T>(s: seq<T>, n: nat)
    requires n < |s|
    ensures s[..n + 1] == s[..n] + [s[n]]
  {
  }

  lemma MentionsJoin(a: seq<Offer>, b: seq<Offer>, id: string)
    ensures Mentions(a + b, id) <==> Mentions(a, id) || Mentions(b, id)
  {
    if Mentions(a + b, id) {
      var i :| 0 <= i < |a + b| && (a + b)[i].answer.id == id;
      if i < |a| { assert a[i].answer.id == id; } else { assert b[i - |a|].answer.id == id; }
    }
    if Mentions(a, id) {
      var i :| 0 <= i < |a| && a[i].answer.id == id;
      assert (a + b)[i].answer.id == id;
    }
    if Mentions(b, id) {
      var i :| 0 <= i < |b| && b[i].answer.id == id;
      assert (a + b)[|a| + i].answer.id == id;
    }
  }

  lemma MadeMentions(d: Decision, c: Offer, id: string)
    ensures Mentions(Made(d, c), id) <==> c.answer.id == id && (d.Keep? || d.Record?)
  {
    if d.Keep? || d.Record? { assert Made(d, c)[0].answer == c.answer; }
  }

  // ---- The loop ----

  /** The outbox once a candidate is decided. */
  function Written(outbox: Outbox, d: Decision, id: string): Outbox {
    if d.Record? then outbox[id := d.delivery] else outbox
  }

  /** The decision taken in the midst of the commit is the verdict. */
  lemma VerdictHere(outbox: Outbox, ours: Delivery -> bool, items: seq<Offer>, n: nat, at: string)
    requires n < |items|
    ensures Decide(Settled(outbox, ours, items[..n], at), ours, items[n], at) == Verdict(outbox, ours, items, n, at)
    ensures Verdict(outbox, ours, items, n, at).Overflow? <==> Decide(outbox, ours, items[n], at).Overflow?
  {
  }

  lemma SettledStep(outbox: Outbox, ours: Delivery -> bool, items: seq<Offer>, n: nat, at: string)
    requires n < |items|
    ensures Settled(outbox, ours, items[..n + 1], at) ==
      Written(Settled(outbox, ours, items[..n], at), Verdict(outbox, ours, items, n, at), items[n].answer.id)
  {
    forall id ensures Mentions(items[..n + 1], id) <==> Mentions(items[..n], id) || items[n].answer.id == id {
      TakeNext(items, n);
      MentionsJoin(items[..n], [items[n]], id);
      assert [items[n]][0] == items[n];
    }
  }

  /** One turn of the loop, for an outbox that is settled so far. */
  lemma TurnHere(
    outbox: Outbox, ours: Delivery -> bool, items: seq<Offer>, n: nat, at: string, after: Outbox, d: Decision)
    requires n < |items| && after == Settled(outbox, ours, items[..n], at) && d == Decide(after, ours, items[n], at)
    ensures d == Verdicts(outbox, ours, items, at)[n]
    ensures d.Overflow? <==> Decide(outbox, ours, items[n], at).Overflow?
    ensures Written(after, d, items[n].answer.id) == Settled(outbox, ours, items[..n + 1], at)
  {
    VerdictHere(outbox, ours, items, n, at);
    SettledStep(outbox, ours, items, n, at);
  }

  lemma SettledNone(outbox: Outbox, ours: Delivery -> bool, at: string)
    ensures Settled(outbox, ours, [], at) == outbox
  {
  }

  /** The offers are an in-order part of the candidates done, and the records say exactly what was offered. */
  ghost predicate Accountable(outbox: Outbox, done: seq<Offer>, out: seq<Offer>, after: Outbox) {
    Subsequence(Answers(out), Answers(done)) && Booked(out, after) && OnlyOffered(outbox, after, out)
  }

  lemma AccountableStep(
    outbox: Outbox, ours: Delivery -> bool, done: seq<Offer>, out: seq<Offer>, after: Outbox, c: Offer, at: string,
    d: Decision)
    requires Accountable(outbox, done, out, after) && d == Decide(after, ours, c, at)
    ensures Accountable(outbox, done + [c], out + Made(d, c), Written(after, d, c.answer.id))
  {
    if d.Keep? {
      OfferedMore(out, done, c, c);
      BookedKeep(outbox, after, out, c);
    } else if d.Record? {
      OfferedMore(out, done, c.(delivery := d.delivery), c);
      BookedRecord(outbox, after, out, c.(delivery := d.delivery));
    } else {
      SkippedMore(out, done, c);
      JoinNothing(out);
    }
  }

  // ---- Candidates for different answers ----

  predicate Distinct(items: seq<Offer>) {
    forall i, j :: 0 <= i < j < |items| ==> items[i].answer.id != items[j].answer.id
  }

  lemma DistinctVerdict(outbox: Outbox, ours: Delivery -> bool, items: seq<Offer>, i: nat, at: string)
    requires Distinct(items) && i < |items|
    ensures Verdict(outbox, ours, items, i, at) == Decide(outbox, ours, items[i], at)
  {
  }

  /** One candidate's share in the offers: itself, itself with a new record, or nothing with its id. */
  ghost predicate Told(d: Decision, c: Offer, offers: seq<Offer>) {
    && (Mentions(offers, c.answer.id) <==> d.Keep? || d.Record?)
    && (d.Keep? ==> c in offers)
    && (d.Record? ==> c.(delivery := d.delivery) in offers)
  }

  /** Every offer has the id of one of the candidates. */
  lemma {:induction false} OffersMention(ds: seq<Decision>, items: seq<Offer>, id: string)
    requires |ds| == |items| && Mentions(Offers(ds, items), id)
    ensures Mentions(items, id)
    decreases |ds|
  {
    if ds != [] {
      var n := |ds| - 1;
      MentionsJoin(Offers(ds[..n], items[..n]), Made(ds[n], items[n]), id);
      MadeMentions(ds[n], items[n], id);
      if Mentions(Offers(ds[..n], items[..n]), id) {
        OffersMention(ds[..n], items[..n], id);
        var i :| 0 <= i < n && items[..n][i].answer.id == id;
        assert items[i].answer.id == id;
      } else {
        assert items[n].answer.id == id;
      }
    }
  }

  lemma ToldMore(d: Decision, c: Offer, offers: seq<Offer>, more: seq<Offer>)
    requires Told(d, c, offers) && !Mentions(more, c.answer.id)
    ensures Told(d, c, offers + more)
  {
    MentionsJoin(offers, more, c.answer.id);
  }

  lemma ToldLast(d: Decision, c: Offer, offers: seq<Offer>)
    requires !Mentions(offers, c.answer.id)
    ensures Told(d, c, offers + Made(d, c))
  {
    MentionsJoin(offers, Made(d, c), c.answer.id);
    MadeMentions(d, c, c.answer.id);
  }

  lemma NotMentioned(items: seq<Offer>, n: nat)
    requires Distinct(items) && n < |items|
    ensures !Mentions(items[..n], items[n].answer.id)
  {
  }

  lemma {:induction false} DistinctTold(ds: seq<Decision>, items: seq<Offer>, i: nat)
    requires |ds| == |items| && Distinct(items) && i < |items|
    ensures Told(ds[i], items[i], Offers(ds, items))
    decreases |ds|
  {
    var n := |ds| - 1;
    var before := Offers(ds[..n], items[..n]);
    if i < n {
      DistinctTold(ds[..n], items[..n], i);
      MadeMentions(ds[n], items[n], items[i].answer.id);
      ToldMore(ds[i], items[i], before, Made(ds[n], items[n]));
    } else {
      NotMentioned(items, n);
      if Mentions(before, items[n].answer.id) { OffersMention(ds[..n], items[..n], items[n].answer.id); }
      ToldLast(ds[n], items[n], before);
    }
  }

  /** Candidates for different answers are decided each by its own record as it was before the commit. */
  lemma DistinctOffers(outbox: Outbox, ours: Delivery -> bool, items: seq<Offer>, at: string, i: nat)
    requires Distinct(items) && i < |items|
    ensures Told(Decide(outbox, ours, items[i], at), items[i], Offers(Verdicts(outbox, ours, items, at), items))
  {
    DistinctVerdict(outbox, ours, items, i, at);
    DistinctTold(Verdicts(outbox, ours, items, at), items, i);
  }

  lemma CurrentMade(outbox: Outbox, ours: Delivery -> bool, c: Offer, at: string)
    requires Current(outbox, ours, c, at)
    ensures Made(Decide(outbox, ours, c, at), c) == [c]
  {
  }

  lemma {:induction false} MadeUnchanged(ds: seq<Decision>, items: seq<Offer>)
    requires |ds| == |items| && forall i :: 0 <= i < |ds| ==> Made(ds[i], items[i]) == [items[i]]
    ensures Offers(ds, items) == items
    decreases |ds|
  {
    if ds != [] {
      MadeUnchanged(ds[..|ds| - 1], items[..|ds| - 1]);
      TakeNext(items, |ds| - 1);
      assert items[..|ds|] == items;
    }
  }

  /** With current records every candidate is offered as it is. */
  lemma CurrentOffers(outbox: Outbox, ours: Delivery -> bool, items: seq<Offer>, at: string)
    requires AllCurrent(outbox, ours, items, at)
    ensures Offers(Verdicts(outbox, ours, items, at), items) == items && NoneSpent(outbox, ours, items, at)
  {
    var ds := Verdicts(outbox, ours, items, at);
    forall i | 0 <= i < |items|
      ensures Made(ds[i], items[i]) == [items[i]] && !Decide(outbox, ours, items[i], at).Overflow?
    {
      DistinctVerdict(outbox, ours, items, i, at);
      CurrentMade(outbox, ours, items[i], at);
    }
    MadeUnchanged(ds, items);
  }

  // ---- The commit ----

  /**
   Every candidate is decided by the record of its answer, in order. Where no two ask for the same answer, that is the
   record as it was before the commit.
   */
  ghost predicate DecidedEach(
    outbox: Outbox, ours: Delivery -> bool, items: seq<Offer>, at: string, offers: seq<Offer>, after: Outbox)
  {
    && offers == Offers(Verdicts(outbox, ours, items, at), items) && after == Settled(outbox, ours, items, at)
    && (Distinct(items) ==>
          forall i :: 0 <= i < |items| ==> Told(Decide(outbox, ours, items[i], at), items[i], offers))
  }

  lemma CommitTold(outbox: Outbox, ours: Delivery -> bool, items: seq<Offer>, at: string)
    ensures DecidedEach(
      outbox, ours, items, at, Offers(Verdicts(outbox, ours, items, at), items), Settled(outbox, ours, items, at))
  {
    if Distinct(items) {
      forall i | 0 <= i < |items|
        ensures Told(Decide(outbox, ours, items[i], at), items[i], Offers(Verdicts(outbox, ours, items, at), items))
      {
        DistinctOffers(outbox, ours, items, at, i);
      }
    }
  }

  /** Where the loop stands after `n` candidates; `ds` are all the verdicts. */
  ghost predicate Committed(
    outbox: Outbox, ours: Delivery -> bool, items: seq<Offer>, n: nat, at: string, ds: seq<Decision>,
    out: seq<Offer>, after: Outbox)
  {
    && n <= |items| == |ds| && after == Settled(outbox, ours, items[..n], at) && out == Offers(ds[..n], items[..n])
    && Accountable(outbox, items[..n], out, after)
    && forall i :: 0 <= i < n ==> !Decide(outbox, ours, items[i], at).Overflow?
  }

  lemma CommitStarts(outbox: Outbox, ours: Delivery -> bool, items: seq<Offer>, at: string, ds: seq<Decision>)
    requires |ds| == |items|
    ensures Committed(outbox, ours, items, 0, at, ds, [], outbox)
  {
    SettledNone(outbox, ours, at);
  }

  lemma CommitStep(
    outbox: Outbox, ours: Delivery -> bool, items: seq<Offer>, n: nat, at: string, ds: seq<Decision>, out: seq<Offer>,
    after: Outbox, d: Decision)
    requires Committed(outbox, ours, items, n, at, ds, out, after) && n < |items|
    requires d == Decide(after, ours, items[n], at) == ds[n]
    requires d.Overflow? <==> Decide(outbox, ours, items[n], at).Overflow?
    requires Written(after, d, items[n].answer.id) == Settled(outbox, ours, items[..n + 1], at)
    ensures !d.Overflow? ==>
      Committed(outbox, ours, items, n + 1, at, ds, out + Made(d, items[n]), Written(after, d, items[n].answer.id))
  {
    TakeNext(items, n);
    TakeNext(ds, n);
    OffersPush(ds[..n], items[..n], d, items[n]);
    AccountableStep(outbox, ours, items[..n], out, after, items[n], at, d);
  }

  /** How far the loop is: what it offers, the outbox, and whether it has failed. */
  datatype Progress = Progress(out: seq<Offer>, after: Outbox, failed: bool)

  type Deciding = (Outbox, Offer) -> Decision

  function Advanced(p: Progress, d: Decision, c: Offer): Progress {
    Progress(p.out + Made(d, c), Written(p.after, d, c.answer.id), p.failed || d.Overflow?)
  }

  /** The loop after `n` candidates, for any way of deciding one. */
  function Run(decide: Deciding, items: seq<Offer>, n: nat, outbox: Outbox): Progress
    requires n <= |items|
  {
    if n == 0 then Progress([], outbox, false)
    else
      var p := Run(decide, items, n - 1, outbox);
      Advanced(p, decide(p.after, items[n - 1]), items[n - 1])
  }

  /** A loop that has failed has failed for good. */
  lemma {:induction false} RunFails(decide: Deciding, items: seq<Offer>, m: nat, n: nat, outbox: Outbox)
    requires m <= n <= |items| && Run(decide, items, m, outbox).failed
    ensures Run(decide, items, n, outbox).failed
  {
    if m < n { RunFails(decide, items, m, n - 1, outbox); }
  }

  /** What every turn keeps holds all along. */
  lemma {:induction false} RunKeeps(
    decide: Deciding, items: seq<Offer>, n: nat, outbox: Outbox, kept: (nat, Progress) -> bool)
    requires n <= |items| && kept(0, Progress([], outbox, false))
    requires forall k, p ::
      0 <= k < |items| && kept(k, p) ==> kept(k + 1, Advanced(p, decide(p.after, items[k]), items[k]))
    ensures kept(n, Run(decide, items, n, outbox))
  {
    if n > 0 { RunKeeps(decide, items, n - 1, outbox, kept); }
  }

  /** The loop itself. */
  method CommitLoop(decide: Deciding, items: seq<Offer>, outbox: Outbox)
    returns (ok: bool, out: seq<Offer>, after: Outbox)
    ensures ok <==> !Run(decide, items, |items|, outbox).failed
    ensures ok ==> Run(decide, items, |items|, outbox) == Progress(out, after, false)
  {
    after, out := outbox, [];
    var n := 0;
    while n < |items|
      invariant 0 <= n <= |items| && Run(decide, items, n, outbox) == Progress(out, after, false)
    {
      var c := items[n];
      match decide(after, c) {
        case Skip => JoinNothing(out);
        case Overflow =>
          RunFails(decide, items, n + 1, |items|, outbox);
          return false, [], outbox;
        case Keep => out := out + [c];
        case Record(delivery) =>
          after := after[c.answer.id := delivery];
          out := out + [c.(delivery := delivery)];
      }
      n := n + 1;
    }
    return true, out, after;
  }

  function Decider(ours: Delivery -> bool, at: string): Deciding {
    (o: Outbox, c: Offer) => Decide(o, ours, c, at)
  }

  /** What is known after some candidates: the loop failed, with a reason, or it is where it should be. */
  ghost predicate Standing(
    outbox: Outbox, ours: Delivery -> bool, items: seq<Offer>, n: nat, at: string, ds: seq<Decision>, p: Progress)
  {
    if p.failed then !NoneSpent(outbox, ours, items, at)
    else Committed(outbox, ours, items, n, at, ds, p.out, p.after)
  }

  lemma StandingStep(
    outbox: Outbox, ours: Delivery -> bool, items: seq<Offer>, n: nat, at: string, ds: seq<Decision>, p: Progress,
    d: Decision)
    requires Standing(outbox, ours, items, n, at, ds, p) && n < |items|
    requires ds == Verdicts(outbox, ours, items, at) && d == Decide(p.after, ours, items[n], at)
    ensures Standing(outbox, ours, items, n + 1, at, ds, Advanced(p, d, items[n]))
  {
    if !p.failed {
      TurnHere(outbox, ours, items, n, at, p.after, d);
      CommitStep(outbox, ours, items, n, at, ds, p.out, p.after, d);
    }
  }

  /** What the finished loop amounts to. */
  ghost predicate Outcome(outbox: Outbox, ours: Delivery -> bool, items: seq<Offer>, at: string, p: Progress) {
    && (p.failed <==> !NoneSpent(outbox, ours, items, at))
    && (!p.failed ==> DecidedEach(outbox, ours, items, at, p.out, p.after))
    && (!p.failed ==> Accountable(outbox, items, p.out, p.after))
    && (AllCurrent(outbox, ours, items, at) ==> !p.failed && p.out == items)
  }

  lemma StandingEnds(
    outbox: Outbox, ours: Delivery -> bool, items: seq<Offer>, at: string, ds: seq<Decision>, p: Progress)
    requires ds == Verdicts(outbox, ours, items, at) && Standing(outbox, ours, items, |items|, at, ds, p)
    ensures Outcome(outbox, ours, items, at, p)
  {
    assert items[..|items|] == items && ds[..|items|] == ds;
    CommitTold(outbox, ours, items, at);
    if AllCurrent(outbox, ours, items, at) { CurrentOffers(outbox, ours, items, at); }
  }

  lemma CommitMeans(outbox: Outbox, ours: Delivery -> bool, items: seq<Offer>, at: string)
    ensures Outcome(outbox, ours, items, at, Run(Decider(ours, at), items, |items|, outbox))
  {
    var ds := Verdicts(outbox, ours, items, at);
    var decide := Decider(ours, at);
    var kept := (k: nat, p: Progress) => Standing(outbox, ours, items, k, at, ds, p);
    CommitStarts(outbox, ours, items, at, ds);
    forall k, p | 0 <= k < |items| && kept(k, p)
      ensures kept(k + 1, Advanced(p, decide(p.after, items[k]), items[k]))
    {
      StandingStep(outbox, ours, items, k, at, ds, p, decide(p.after, items[k]));
    }
    RunKeeps(decide, items, |items|, outbox, kept);
    StandingEnds(outbox, ours, items, at, ds, Run(decide, items, |items|, outbox));
  }

  /**
   The commit. It fails exactly if some candidate asks for a record whose attempts are exhausted, and then changes
   nothing. Otherwise every candidate is decided by its own record, in order, and each offer is in the outbox exactly
   as offered; no other record changes. If every record is still the one its candidate was prepared from, all are
   offered.
   */
  method OfferOnce(outbox: Outbox, ours: Delivery -> bool, candidates: AnswerPage, at: string)
    returns (r: Option<AnswerPage>, after: Outbox)
    ensures r.None? <==>
      exists i :: 0 <= i < |candidates.items| && Exhausted(outbox, ours, candidates.items[i].answer.id)
    ensures r.None? <==> !NoneSpent(outbox, ours, candidates.items, at)
    ensures r.None? ==> after == outbox
    ensures r.Some? ==> CommitExact(outbox, ours, candidates.items, at, r.value.items, after)
    ensures r.Some? ==> r.value.truncated == candidates.truncated
    ensures r.Some? ==> DecidedEach(outbox, ours, candidates.items, at, r.value.items, after)
    ensures r.Some? ==> Accountable(outbox, candidates.items, r.value.items, after)
    ensures AllCurrent(outbox, ours, candidates.items, at) ==> r == Some(candidates)
  {
    CommitMeans(outbox, ours, candidates.items, at);
    SpentExactly(outbox, ours, candidates.items, at);
    var ok, out;
    ok, out, after := CommitLoop(Decider(ours, at), candidates.items, outbox);
    if !ok { return None, outbox; }
    CommitExactly(outbox, ours, candidates.items, at, out, after);
    return Some(Page(out, candidates.truncated)), after;
  }

  // ---- The commit in the records' own terms ----

  /** A candidate is offered if its answer's record is ours, and is queued or is this very offer. */
  ghost predicate Offerable(outbox: Outbox, ours: Delivery -> bool, c: Offer) {
    && c.answer.id in outbox && ours(outbox[c.answer.id])
    && (outbox[c.answer.id].state == Queued
        || (outbox[c.answer.id].state == Offered && outbox[c.answer.id] == c.delivery))
  }

  /** A queued record of ours whose attempt count is the largest there is. */
  ghost predicate Exhausted(outbox: Outbox, ours: Delivery -> bool, id: string) {
    id in outbox && ours(outbox[id]) && outbox[id].state == Queued && outbox[id].attempts >= 18446744073709551615
  }

  /**
   What a commit does, record by record: it fails exactly on a candidate whose record is exhausted. Otherwise a queued
   record of ours that a candidate asks for has its attempt counted and timed, field by field, and no other record
   changes; and of candidates for different answers exactly the offerable ones are offered, each with the answer and the
   foreign fields of its candidate and with the record now in the outbox.
   */
  ghost predicate CommitExact(
    outbox: Outbox, ours: Delivery -> bool, items: seq<Offer>, at: string, offers: seq<Offer>, after: Outbox)
  {
    && after.Keys == outbox.Keys
    && (forall id :: id in outbox ==>
          if ours(outbox[id]) && outbox[id].state == Queued && Mentions(items, id)
          then Booking(outbox[id], after[id], at) else after[id] == outbox[id])
    && (Distinct(items) ==> forall i :: 0 <= i < |items| ==>
          && (Mentions(offers, items[i].answer.id) <==> Offerable(outbox, ours, items[i]))
          && (Offerable(outbox, ours, items[i]) ==> Showing(items[i], offers, after)))
  }

  /** The candidate is among the offers, with the record that the outbox has of it. */
  ghost predicate Showing(c: Offer, offers: seq<Offer>, after: Outbox) {
    exists k :: 0 <= k < |offers| && offers[k].answer == c.answer && offers[k].extra == c.extra
      && c.answer.id in after && offers[k].delivery == after[c.answer.id]
  }

  lemma SpentExactly(outbox: Outbox, ours: Delivery -> bool, items: seq<Offer>, at: string)
    ensures NoneSpent(outbox, ours, items, at) <==>
      forall i :: 0 <= i < |items| ==> !Exhausted(outbox, ours, items[i].answer.id)
  {
    forall i | 0 <= i < |items|
      ensures Decide(outbox, ours, items[i], at).Overflow? <==> Exhausted(outbox, ours, items[i].answer.id)
    {
    }
  }

  lemma SettledExactly(outbox: Outbox, ours: Delivery -> bool, items: seq<Offer>, at: string, id: string)
    requires id in outbox && (Mentions(items, id) ==> !Exhausted(outbox, ours, id))
    ensures var after := Settled(outbox, ours, items, at);
      if ours(outbox[id]) && outbox[id].state == Queued && Mentions(items, id)
      then Booking(outbox[id], after[id], at) else after[id] == outbox[id]
  {
  }

  lemma OfferedExactly(
    outbox: Outbox, ours: Delivery -> bool, items: seq<Offer>, at: string, offers: seq<Offer>, i: nat)
    requires i < |items| && !Exhausted(outbox, ours, items[i].answer.id)
    requires Told(Decide(outbox, ours, items[i], at), items[i], offers)
    ensures Mentions(offers, items[i].answer.id) <==> Offerable(outbox, ours, items[i])
    ensures Offerable(outbox, ours, items[i]) ==> Showing(items[i], offers, Settled(outbox, ours, items, at))
  {
    var (c, d) := (items[i], Decide(outbox, ours, items[i], at));
    if Offerable(outbox, ours, c) {
      assert Mentions(items, c.answer.id);
      var o := if d.Keep? then c else c.(delivery := d.delivery);
      var k :| 0 <= k < |offers| && offers[k] == o;
    }
  }

  lemma CommitExactly(
    outbox: Outbox, ours: Delivery -> bool, items: seq<Offer>, at: string, offers: seq<Offer>, after: Outbox)
    requires NoneSpent(outbox, ours, items, at) && DecidedEach(outbox, ours, items, at, offers, after)
    ensures CommitExact(outbox, ours, items, at, offers, after)
  {
    SpentExactly(outbox, ours, items, at);
    forall id | id in outbox
      ensures if ours(outbox[id]) && outbox[id].state == Queued && Mentions(items, id)
              then Booking(outbox[id], after[id], at) else after[id] == outbox[id]
    {
      SettledExactly(outbox, ours, items, at, id);
    }
    if Distinct(items) {
      forall i | 0 <= i < |items|
        ensures Mentions(offers, items[i].answer.id) <==> Offerable(outbox, ours, items[i])
        ensures Offerable(outbox, ours, items[i]) ==> Showing(items[i], offers, after)
      {
        OfferedExactly(outbox, ours, items, at, offers, i);
      }
    }
  }

  // ---- The second fitting ----

  /** The second fitting drops nothing if and only if the committed page is empty or within the budget. */
  lemma SecondFitIff(offered: AnswerPage, h: Hook)
    ensures Fit(SizeOf(true), offered, Room(h)) == offered <==> offered.items == [] || Accepts(offered, h)
  {
    AcceptsIff(offered, h);
    FitIff(SizeOf(true), offered, Room(h));
  }

  lemma FitIff<T>(size: T -> nat, p: Page<T>, room: int)
    ensures Fit(size, p, room) == p <==> p.items == [] || Load(size, p) <= room
  {
    FitMeaning(size, p, room);
    if p.items != [] && Load(size, p) <= room { FitAll(size, p, room); }
  }

  /** The length of a delivery record as it travels. */
  function RecordSize(d: Delivery): nat {
    Size(true, Print(Escape, DeliveryValue(d)))
  }

  lemma Wrapped(left: string, x: string, y: string, right: string)
    requires Size(true, x) <= Size(true, y)
    ensures Size(true, left + x + right) <= Size(true, left + y + right)
  {
    Size3(true, left, x, right);
    Size3(true, left, y, right);
  }

  lemma FieldWire(key: string, v: Value, w: Value, size: Field -> nat)
    requires Size(true, Print(Escape, v)) <= Size(true, Print(Escape, w)) && size == FieldSizeOf(true)
    ensures size(Field(key, v)) <= size(Field(key, w))
  {
    Size3(true, Quoted(Escape, key), ":", Print(Escape, v));
    Size3(true, Quoted(Escape, key), ":", Print(Escape, w));
  }

  lemma LastUpdate<T>(size: T -> nat, extra: seq<T>, a: T, v: T, w: T)
    requires size(v) <= size(w)
    ensures Total(size, extra + [a, v]) <= Total(size, extra + [a, w])
  {
    assert extra + [a, w] == (extra + [a, v])[|extra| + 1 := w];
    TotalUpdate(size, extra + [a, v], |extra| + 1, w);
  }

  lemma LastFieldWire(extra: seq<Field>, a: Field, k: string, v: Value, w: Value)
    requires Size(true, Print(Escape, v)) <= Size(true, Print(Escape, w))
    ensures Size(true, Print(Escape, Obj(extra + [a, Field(k, v)])))
         <= Size(true, Print(Escape, Obj(extra + [a, Field(k, w)])))
  {
    var s, t := extra + [a, Field(k, v)], extra + [a, Field(k, w)];
    FieldWire(k, v, w, FieldSizeOf(true));
    LastUpdate(FieldSizeOf(true), extra, a, Field(k, v), Field(k, w));
    FieldsTotal(true, s);
    FieldsTotal(true, t);
    Wrapped("{", PrintFields(Escape, s), PrintFields(Escape, t), "}");
  }

  lemma ShorterRecord(c: Offer, d: Delivery)
    requires RecordSize(d) <= RecordSize(c.delivery)
    ensures OfferSize(true, c.(delivery := d)) <= OfferSize(true, c)
  {
    LastFieldWire(c.extra, Field("answer", AnswerValue(c.answer)), "delivery", DeliveryValue(d),
                  DeliveryValue(c.delivery));
  }

  /** No record that the commit would write is longer than the one its candidate was selected with. */
  ghost predicate NoLonger(outbox: Outbox, ours: Delivery -> bool, items: seq<Offer>, at: string) {
    forall i :: 0 <= i < |items| && Recordable(outbox, ours, items[i].answer.id) ==>
      RecordSize(Attempted(outbox[items[i].answer.id], at)) <= RecordSize(items[i].delivery)
  }

  lemma {:induction false} TotalPush<T>(size: T -> nat, xs: seq<T>, x: T)
    ensures Total(size, xs + [x]) == size(x) + if xs == [] then 0 else 1 + Total(size, xs)
  {
    if xs != [] {
      assert (xs + [x])[1..] == xs[1..] + [x];
      TotalPush(size, xs[1..], x);
    }
  }

  /** At most one offer is made of a candidate, and none longer than it. */
  predicate MadeSmall<T>(size: T -> nat, made: seq<T>, c: T) {
    made == [] || (|made| == 1 && size(made[0]) <= size(c))
  }

  lemma MadeNoLonger(outbox: Outbox, ours: Delivery -> bool, items: seq<Offer>, i: nat, at: string)
    requires NoLonger(outbox, ours, items, at) && i < |items|
    ensures MadeSmall(SizeOf(true), Made(Verdicts(outbox, ours, items, at)[i], items[i]), items[i])
  {
    var d := Verdict(outbox, ours, items, i, at);
    if d.Record? { ShorterRecord(items[i], d.delivery); }
  }

  lemma MadeTotal<T>(size: T -> nat, before: seq<T>, done: seq<T>, made: seq<T>, c: T)
    requires |before| <= |done| && Total(size, before) <= Total(size, done) && MadeSmall(size, made, c)
    ensures |before + made| <= |done + [c]| && Total(size, before + made) <= Total(size, done + [c])
  {
    TotalPush(size, done, c);
    if made == [] {
      JoinNothing(before);
    } else {
      OneElement(made);
      TotalPush(size, before, made[0]);
    }
  }

  lemma {:induction false} OffersNoLonger(ds: seq<Decision>, items: seq<Offer>, size: Offer -> nat)
    requires |ds| == |items| && forall i :: 0 <= i < |ds| ==> MadeSmall(size, Made(ds[i], items[i]), items[i])
    ensures Total(size, Offers(ds, items)) <= Total(size, items) && |Offers(ds, items)| <= |items|
    decreases |ds|
  {
    if ds != [] {
      var n := |ds| - 1;
      OffersNoLonger(ds[..n], items[..n], size);
      MadeTotal(size, Offers(ds[..n], items[..n]), items[..n], Made(ds[n], items[n]), items[n]);
      TakeNext(items, n);
      assert items[..n + 1] == items;
    }
  }

  lemma FitSmaller<T>(size: T -> nat, p: Page<T>, selected: Page<T>, room: int)
    requires Total(size, p.items) <= Total(size, selected.items) && p.truncated == selected.truncated
    requires Load(size, selected) <= room
    ensures Fit(size, p, room) == p
  {
    FitAll(size, p, room);
  }

  /** If the stored records have not grown since the selection, everything committed is shown, whatever else changed. */
  lemma NoLongerIsShown(outbox: Outbox, ours: Delivery -> bool, candidates: AnswerPage, at: string, h: Hook)
    requires Accepts(candidates, h) && NoLonger(outbox, ours, candidates.items, at)
    ensures var offers := Offers(Verdicts(outbox, ours, candidates.items, at), candidates.items);
      var offered := Page(offers, candidates.truncated);
      Fit(SizeOf(true), offered, Room(h)) == offered
  {
    AcceptsIff(candidates, h);
    NoLongerFits(outbox, ours, candidates, at, Room(h));
  }

  lemma NoLongerFits(outbox: Outbox, ours: Delivery -> bool, candidates: AnswerPage, at: string, room: int)
    requires NoLonger(outbox, ours, candidates.items, at) && Load(SizeOf(true), candidates) <= room
    ensures var offers := Offers(Verdicts(outbox, ours, candidates.items, at), candidates.items);
      var offered := Page(offers, candidates.truncated);
      Fit(SizeOf(true), offered, room) == offered
  {
    var items := candidates.items;
    var ds := Verdicts(outbox, ours, items, at);
    forall i | 0 <= i < |items| ensures MadeSmall(SizeOf(true), Made(ds[i], items[i]), items[i]) {
      MadeNoLonger(outbox, ours, items, i, at);
    }
    OffersNoLonger(ds, items, SizeOf(true));
    FitSmaller(SizeOf(true), Page(Offers(ds, items), candidates.truncated), candidates, room);
  }

  function Long(n: nat): string {
    seq(n, _ => 'x')
  }

  lemma ErrorWithin(d: Delivery, n: nat)
    requires d.error == Some(Long(n))
    ensures n <= RecordSize(d)
  {
    var (text, fields) := (Long(n), d.extra + DeliveryFields(d));
    forall c <- text ensures Plain(c) && Escape(c) == [c] { assert c == 'x'; }
    PlainSize(true, text);
    EscapePlain(text);
    Size3(true, "\"", text, "\"");
    assert fields[|d.extra| + 11] == DeliveryFields(d)[11];
    FieldWithin(true, fields, |d.extra| + 11);
    ObjectSize(true, fields);
  }

  lemma RecordWithin(o: Offer)
    ensures RecordSize(o.delivery) <= OfferSize(true, o)
  {
    var parts := [Field("answer", AnswerValue(o.answer)), Field("delivery", DeliveryValue(o.delivery))];
    var fields := o.extra + parts;
    assert fields[|o.extra| + 1] == parts[1];
    FieldWithin(true, fields, |o.extra| + 1);
    ObjectSize(true, fields);
  }

  lemma FitNothing<T>(size: T -> nat, x: T, room: int)
    requires size(x) > room
    ensures Fit(size, Page([x], false), room).items == []
  {
    if Fit(size, Page([x], false), room).items != [] {
      var i := PackSome(size, [x], Page([], false), room);
    }
  }

  lemma TooLongToShow(o: Offer, h: Hook, size: Offer -> nat)
    requires o.delivery.error == Some(Long(MAX_OFFER_BYTES + 1)) && size == SizeOf(true)
    ensures Fit(size, Page([o], false), Room(h)).items == []
  {
    ErrorWithin(o.delivery, MAX_OFFER_BYTES + 1);
    RecordWithin(o);
    RoomBound(h);
    FitNothing(size, o, Room(h));
  }

  lemma RoomBound(h: Hook)
    ensures Room(h) <= MAX_OFFER_BYTES
  {
  }

  /**
   The queued record `seen`, from which the candidate was prepared, has got another error text by the time of the
   commit, which books `offer`.
   */
  ghost predicate Grown(
    outbox: Outbox, ours: Delivery -> bool, c: Offer, seen: Delivery, at: string, offer: Offer)
  {
    && outbox == map[c.answer.id := seen.(error := offer.delivery.error)]
    && offer == c.(delivery := c.delivery.(error := offer.delivery.error)) && offer.delivery.state == Offered
    && NoneSpent(outbox, ours, [c], at) && Offers(Verdicts(outbox, ours, [c], at), [c]) == [offer]
    && Settled(outbox, ours, [c], at) == map[c.answer.id := offer.delivery]
  }

  lemma RecordGrows(c: Offer, seen: Delivery, ours: Delivery -> bool, at: string, error: string)
    returns (outbox: Outbox, offer: Offer)
    requires seen.state == Queued && seen.attempts < U64_MAX && c.delivery == Attempted(seen, at)
    requires ours(seen.(error := Some(error)))
    ensures Grown(outbox, ours, c, seen, at, offer) && offer.delivery.error == Some(error)
  {
    outbox := map[c.answer.id := seen.(error := Some(error))];
    offer := c.(delivery := Attempted(seen.(error := Some(error)), at));
    OneRecorded(outbox, ours, c, at);
  }

  /**
   Otherwise an answer can be booked as offered and not be shown: for every candidate and every hook there is an error
   text with which the commit succeeds, the record says offered, and the reply holds nothing.
   */
  lemma GrownNotShown(c: Offer, seen: Delivery, ours: Delivery -> bool, at: string, h: Hook)
    returns (outbox: Outbox, offer: Offer)
    requires seen.state == Queued && seen.attempts < U64_MAX && c.delivery == Attempted(seen, at)
    requires forall e :: ours(seen.(error := e))
    ensures Grown(outbox, ours, c, seen, at, offer)
    ensures Fit(SizeOf(true), Page([offer], false), Room(h)).items == []
  {
    outbox, offer := RecordGrows(c, seen, ours, at, Long(MAX_OFFER_BYTES + 1));
    TooLongToShow(offer, h, SizeOf(true));
  }

  lemma OneRecorded(outbox: Outbox, ours: Delivery -> bool, c: Offer, at: string)
    requires outbox.Keys == {c.answer.id} && Recordable(outbox, ours, c.answer.id)
    ensures var d := Attempted(outbox[c.answer.id], at);
      && NoneSpent(outbox, ours, [c], at) && Offers(Verdicts(outbox, ours, [c], at), [c]) == [c.(delivery := d)]
      && Settled(outbox, ours, [c], at) == map[c.answer.id := d]
  {
    var ds := Verdicts(outbox, ours, [c], at);
    DistinctVerdict(outbox, ours, [c], 0, at);
    OneElement(ds);
    JoinNothing([c]);
    JoinNothing(ds);
    OffersPush([], [], ds[0], c);
    assert [c][0].answer.id == c.answer.id;
  }

  /**
   The end of the hook: commit, fit again, render. What is shown was committed, and every candidate is decided by its
   own record; the reply is within the budget; and if the records did not change since the selection, the whole
   selection is shown.
   */
  method Deliver(outbox: Outbox, ours: Delivery -> bool, candidates: AnswerPage, at: string, h: Hook)
    returns (ok: bool, reply: Option<string>, after: Outbox, ghost offered: AnswerPage)
    ensures ok <==> NoneSpent(outbox, ours, candidates.items, at)
    ensures !ok ==> reply == None && after == outbox
    ensures ok ==> offered.truncated == candidates.truncated
    ensures ok ==> DecidedEach(outbox, ours, candidates.items, at, offered.items, after)
    ensures ok ==> CommitExact(outbox, ours, candidates.items, at, offered.items, after)
    ensures ok ==> Accountable(outbox, candidates.items, offered.items, after)
    ensures ok ==> reply == AnswerOutput(Fit(SizeOf(true), offered, Room(h)), h)
    ensures reply.Some? ==> ok && Bytes(reply.value) <= MAX_OFFER_BYTES
    ensures AllCurrent(outbox, ours, candidates.items, at) && Accepts(candidates, h) ==>
      ok && reply == AnswerOutput(candidates, h)
  {
    var r;
    r, after := OfferOnce(outbox, ours, candidates, at);
    if r.None? { return false, None, after, candidates; }
    reply := GuardReply(r.value, h);
    SecondFitIff(r.value, h);
    return true, reply, after, r.value;
  }
}
