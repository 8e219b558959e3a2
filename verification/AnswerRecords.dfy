/**
 Human answers and their delivery records, and the JSON value of a page of them. The value determines
 the page, so reading the printed text back recovers every field.
 */
module AnswerRecords {
  import opened Basics
  import opened Json
  import Packing

  // ---- Records ----

  datatype DeliveryState = Queued | Offered | Acknowledged

  datatype Answer = Answer(
    extra: seq<Field>, schemaVersion: nat, id: string, requestId: string, requestRevision: nat, action: string,
    optionId: Option<string>, text: Option<string>, actor: string, sourceHost: Option<string>, channel: string,
    answeredAt: string, operationId: string)

  datatype Delivery = Delivery(
    extra: seq<Field>, schemaVersion: nat, answerId: string, targetHost: string, targetSession: string,
    targetActor: string, transport: string, messageId: string, state: DeliveryState, attempts: nat,
    lastAttemptAt: Option<string>, acknowledgedAt: Option<string>, error: Option<string>)

  datatype Offer = Offer(extra: seq<Field>, answer: Answer, delivery: Delivery)

  type AnswerPage = Packing.Page<Offer>

  // ---- Their JSON values, field by field in declaration order ----

  function Digit(n: nat): char
    requires n < 10
  {
    ('0' as int + n) as char
  }

  function Decimal(n: nat): (s: string)
    ensures if n < 10 then |s| == 1 else |s| >= 2
  {
    if n < 10 then [Digit(n)] else Decimal(n / 10) + [Digit(n % 10)]
  }

  function Number(n: nat): Value {
    Num(Decimal(n))
  }

  function Maybe(o: Option<string>): Value {
    if o.None? then Null else Str(o.value)
  }

  function StateName(s: DeliveryState): string {
    match s
    case Queued => "queued"
    case Offered => "offered"
    case Acknowledged => "acknowledged"
  }

  /** `source_host` is left out when absent; every other optional field is written as null. */
  function AnswerTail(a: Answer): seq<Field> {
    (if a.sourceHost.None? then [] else [Field("source_host", Str(a.sourceHost.value))])
    + [Field("channel", Str(a.channel)), Field("answered_at", Str(a.answeredAt)),
       Field("operation_id", Str(a.operationId))]
  }

  function AnswerHead(a: Answer): seq<Field> {
    [Field("schema_version", Number(a.schemaVersion)), Field("id", Str(a.id)), Field("request_id", Str(a.requestId)),
     Field("request_revision", Number(a.requestRevision)), Field("action", Str(a.action)),
     Field("option_id", Maybe(a.optionId)), Field("text", Maybe(a.text)), Field("actor", Str(a.actor))]
  }

  function AnswerValue(a: Answer): Value {
    Obj(a.extra + AnswerHead(a) + AnswerTail(a))
  }

  function DeliveryFields(d: Delivery): seq<Field> {
    [Field("schema_version", Number(d.schemaVersion)), Field("answer_id", Str(d.answerId)),
     Field("target_host", Str(d.targetHost)), Field("target_session", Str(d.targetSession)),
     Field("target_actor", Str(d.targetActor)), Field("transport", Str(d.transport)),
     Field("message_id", Str(d.messageId)), Field("state", Str(StateName(d.state))),
     Field("attempts", Number(d.attempts)), Field("last_attempt_at", Maybe(d.lastAttemptAt)),
     Field("acknowledged_at", Maybe(d.acknowledgedAt)), Field("error", Maybe(d.error))]
  }

  function DeliveryValue(d: Delivery): Value {
    Obj(d.extra + DeliveryFields(d))
  }

  function OfferValue(o: Offer): Value {
    Obj(o.extra + [Field("answer", AnswerValue(o.answer)), Field("delivery", DeliveryValue(o.delivery))])
  }

  function OfferValues(items: seq<Offer>): seq<Value> {
    if items == [] then [] else [OfferValue(items[0])] + OfferValues(items[1..])
  }

  const ITEMS := "items"
  const TRUNCATED := "truncated"

  function PageValue(p: AnswerPage): Value {
    Obj([Field(ITEMS, Arr(OfferValues(p.items))), Field(TRUNCATED, Bool(p.truncated))])
  }

  // ---- Well-formedness: only foreign (`extra`) fields can break it ----

  predicate SoundFields(fields: seq<Field>) {
    forall i :: 0 <= i < |fields| ==> WellFormed(fields[i].value)
  }

  predicate SoundOffer(o: Offer) {
    SoundFields(o.extra) && SoundFields(o.answer.extra) && SoundFields(o.delivery.extra)
  }

  predicate SoundPage(p: AnswerPage) {
    forall i :: 0 <= i < |p.items| ==> SoundOffer(p.items[i])
  }

  lemma {:induction false} DecimalWellFormed(n: nat)
    ensures WellFormed(Number(n))
  {
    if n >= 10 { DecimalWellFormed(n / 10); }
  }

  lemma OfferWellFormed(o: Offer)
    requires SoundOffer(o)
    ensures WellFormed(OfferValue(o))
  {
    var a, d := o.answer, o.delivery;
    DecimalWellFormed(a.schemaVersion);
    DecimalWellFormed(a.requestRevision);
    DecimalWellFormed(d.schemaVersion);
    DecimalWellFormed(d.attempts);
    assert SoundFields(AnswerHead(a)) && SoundFields(AnswerTail(a));
    assert SoundFields(DeliveryFields(d));
    assert WellFormed(AnswerValue(a)) && WellFormed(DeliveryValue(d));
  }

  lemma {:induction false} OffersWellFormed(items: seq<Offer>)
    requires forall i :: 0 <= i < |items| ==> SoundOffer(items[i])
    ensures forall i :: 0 <= i < |OfferValues(items)| ==> WellFormed(OfferValues(items)[i])
  {
    if items != [] {
      OfferWellFormed(items[0]);
      OffersWellFormed(items[1..]);
    }
  }

  lemma PageWellFormed(p: AnswerPage)
    requires SoundPage(p)
    ensures WellFormed(PageValue(p))
  {
    OffersWellFormed(p.items);
    assert WellFormed(Arr(OfferValues(p.items)));
  }

  // ---- The JSON value determines the page ----

  lemma {:induction false} DecimalInjective(m: nat, n: nat)
    requires Decimal(m) == Decimal(n)
    ensures m == n
  {
    var s, t := Decimal(m), Decimal(n);
    if m >= 10 {
      assert s[..|s| - 1] == Decimal(m / 10) && t[..|t| - 1] == Decimal(n / 10);
      DecimalInjective(m / 10, n / 10);
      assert s[|s| - 1] == Digit(m % 10) && t[|t| - 1] == Digit(n % 10);
    }
  }

  lemma SuffixEqual<T>(a: seq<T>, b: seq<T>, x: seq<T>, y: seq<T>)
    requires a + x == b + y && |x| == |y|
    ensures a == b && x == y
  {
    assert a == (a + x)[..|a|] && b == (b + y)[..|b|];
    assert x == (a + x)[|a|..] && y == (b + y)[|b|..];
  }

  lemma MaybeInjective(a: Option<string>, b: Option<string>)
    requires Maybe(a) == Maybe(b)
    ensures a == b
  {
  }

  lemma AnswerTailInjective(a: Answer, b: Answer, x: seq<Field>, y: seq<Field>)
    requires x != [] && y != [] && x[|x| - 1].key == "actor" && y[|y| - 1].key == "actor"
    requires x + AnswerTail(a) == y + AnswerTail(b)
    ensures x == y && AnswerTail(a) == AnswerTail(b)
  {
    var s, n := x + AnswerTail(a), |x + AnswerTail(a)|;
    assert s[n - 4].key == (if a.sourceHost.None? then "actor" else "source_host");
    assert s[n - 4].key == (if b.sourceHost.None? then "actor" else "source_host");
    assert "actor"[0] != "source_host"[0];
    SuffixEqual(x, y, AnswerTail(a), AnswerTail(b));
  }

  lemma AnswerInjective(a: Answer, b: Answer)
    requires AnswerValue(a) == AnswerValue(b)
    ensures a == b
  {
    AnswerTailInjective(a, b, a.extra + AnswerHead(a), b.extra + AnswerHead(b));
    SuffixEqual(a.extra, b.extra, AnswerHead(a), AnswerHead(b));
    var h, g := AnswerHead(a), AnswerHead(b);
    assert h[0] == g[0] && h[1] == g[1] && h[2] == g[2] && h[3] == g[3];
    assert h[4] == g[4] && h[5] == g[5] && h[6] == g[6] && h[7] == g[7];
    DecimalInjective(a.schemaVersion, b.schemaVersion);
    DecimalInjective(a.requestRevision, b.requestRevision);
    MaybeInjective(a.optionId, b.optionId);
    MaybeInjective(a.text, b.text);
    var t, u := AnswerTail(a), AnswerTail(b);
    var n := |t|;
    assert t[n - 1] == u[n - 1] && t[n - 2] == u[n - 2] && t[n - 3] == u[n - 3];
    assert n == 4 ==> t[0] == u[0];
  }

  lemma DeliveryInjective(a: Delivery, b: Delivery)
    requires DeliveryValue(a) == DeliveryValue(b)
    ensures a == b
  {
    var h, g := DeliveryFields(a), DeliveryFields(b);
    SuffixEqual(a.extra, b.extra, h, g);
    assert h[0] == g[0] && h[1] == g[1] && h[2] == g[2] && h[3] == g[3];
    assert h[4] == g[4] && h[5] == g[5] && h[6] == g[6] && h[7] == g[7];
    assert h[8] == g[8] && h[9] == g[9] && h[10] == g[10] && h[11] == g[11];
    assert |"queued"| == 6 && |"offered"| == 7 && |"acknowledged"| == 12;
    DecimalInjective(a.schemaVersion, b.schemaVersion);
    DecimalInjective(a.attempts, b.attempts);
    MaybeInjective(a.lastAttemptAt, b.lastAttemptAt);
    MaybeInjective(a.acknowledgedAt, b.acknowledgedAt);
    MaybeInjective(a.error, b.error);
  }

  lemma OfferInjective(a: Offer, b: Offer)
    requires OfferValue(a) == OfferValue(b)
    ensures a == b
  {
    var h := [Field("answer", AnswerValue(a.answer)), Field("delivery", DeliveryValue(a.delivery))];
    var g := [Field("answer", AnswerValue(b.answer)), Field("delivery", DeliveryValue(b.delivery))];
    SuffixEqual(a.extra, b.extra, h, g);
    assert h[0] == g[0] && h[1] == g[1];
    AnswerInjective(a.answer, b.answer);
    DeliveryInjective(a.delivery, b.delivery);
  }

  lemma {:induction false} OffersInjective(a: seq<Offer>, b: seq<Offer>)
    requires OfferValues(a) == OfferValues(b)
    ensures a == b
  {
    if a != [] && b != [] {
      var u, v := OfferValues(a), OfferValues(b);
      assert u[0] == v[0] && u[1..] == OfferValues(a[1..]) && v[1..] == OfferValues(b[1..]);
      OfferInjective(a[0], b[0]);
      OffersInjective(a[1..], b[1..]);
      assert [a[0]] + a[1..] == a && [b[0]] + b[1..] == b;
    }
  }

  lemma PageInjective(p: AnswerPage, q: AnswerPage)
    requires PageValue(p) == PageValue(q)
    ensures p == q
  {
    assert PageValue(p).fields[0] == PageValue(q).fields[0];
    assert PageValue(p).fields[1] == PageValue(q).fields[1];
    OffersInjective(p.items, q.items);
  }
}
