/**
 Reading a page of answers back from its JSON value, field by field under the names that travel. Nothing here looks at
 how the value was written.
 */
module AnswerDecode {
  import opened Basics
  import opened Json
  import opened AnswerRecords
  import Packing

  // ---- Fields by name ----

  /** The fields under other names, in order. */
  function Foreign(fields: seq<Field>, names: seq<string>): seq<Field> {
    if fields == [] then []
    else (if fields[0].key in names then [] else [fields[0]]) + Foreign(fields[1..], names)
  }

  function ReadDigits(s: string): Option<nat> {
    if s == "" then Some(0)
    else
      var (init, last) := (ReadDigits(s[..|s| - 1]), s[|s| - 1]);
      if init.None? || !('0' <= last <= '9') then None else Some(10 * init.value + (last as int - '0' as int))
  }

  function Count(fields: seq<Field>, key: string): Option<nat> {
    match Find(fields, key)
    case Some(Num(lexeme)) => if lexeme == "" then None else ReadDigits(lexeme)
    case _ => None
  }

  function Text(fields: seq<Field>, key: string): Option<string> {
    match Find(fields, key)
    case Some(Str(text)) => Some(text)
    case _ => None
  }

  /** A text that may be null or missing; the outer option fails for any other value. */
  function MaybeText(fields: seq<Field>, key: string): Option<Option<string>> {
    match Find(fields, key)
    case Some(Str(text)) => Some(Some(text))
    case Some(Null) => Some(None)
    case None => Some(None)
    case _ => None
  }

  // ---- The records ----

  const ANSWER_NAMES := [
    "schema_version", "id", "request_id", "request_revision", "action", "option_id", "text", "actor", "source_host",
    "channel", "answered_at", "operation_id"]

  const DELIVERY_NAMES := [
    "schema_version", "answer_id", "target_host", "target_session", "target_actor", "transport", "message_id", "state",
    "attempts", "last_attempt_at", "acknowledged_at", "error"]

  function DecodeAnswer(v: Value): Option<Answer> {
    if !v.Obj? then None
    else
      var f := v.fields;
      var schemaVersion, requestRevision := Count(f, "schema_version"), Count(f, "request_revision");
      var id, requestId, action := Text(f, "id"), Text(f, "request_id"), Text(f, "action");
      var optionId, text, sourceHost := MaybeText(f, "option_id"), MaybeText(f, "text"), MaybeText(f, "source_host");
      var actor, channel, answeredAt := Text(f, "actor"), Text(f, "channel"), Text(f, "answered_at");
      var operationId := Text(f, "operation_id");
      if schemaVersion.None? || requestRevision.None? || id.None? || requestId.None? || action.None? then None
      else if optionId.None? || text.None? || sourceHost.None? || actor.None? || channel.None? then None
      else if answeredAt.None? || operationId.None? then None
      else
        Some(Answer(
          Foreign(f, ANSWER_NAMES), schemaVersion.value, id.value, requestId.value, requestRevision.value, action.value,
          optionId.value, text.value, actor.value, sourceHost.value, channel.value, answeredAt.value,
          operationId.value))
  }

  function DecodeState(name: string): Option<DeliveryState> {
    if name == "queued" then Some(Queued)
    else if name == "offered" then Some(Offered)
    else if name == "acknowledged" then Some(Acknowledged)
    else None
  }

  function DecodeDelivery(v: Value): Option<Delivery> {
    if !v.Obj? then None
    else
      var f := v.fields;
      var schemaVersion, attempts := Count(f, "schema_version"), Count(f, "attempts");
      var answerId, targetHost := Text(f, "answer_id"), Text(f, "target_host");
      var targetSession, targetActor := Text(f, "target_session"), Text(f, "target_actor");
      var transport, messageId, name := Text(f, "transport"), Text(f, "message_id"), Text(f, "state");
      var lastAttemptAt, acknowledgedAt := MaybeText(f, "last_attempt_at"), MaybeText(f, "acknowledged_at");
      var error := MaybeText(f, "error");
      if schemaVersion.None? || attempts.None? || answerId.None? || targetHost.None? || targetSession.None? then None
      else if targetActor.None? || transport.None? || messageId.None? || name.None? then None
      else if lastAttemptAt.None? || acknowledgedAt.None? || error.None? then None
      else match DecodeState(name.value)
        case None => None
        case Some(state) =>
          Some(Delivery(
            Foreign(f, DELIVERY_NAMES), schemaVersion.value, answerId.value, targetHost.value, targetSession.value,
            targetActor.value, transport.value, messageId.value, state, attempts.value, lastAttemptAt.value,
            acknowledgedAt.value, error.value))
  }

  function DecodeOffer(v: Value): Option<Offer> {
    if !v.Obj? then None
    else match (Find(v.fields, "answer"), Find(v.fields, "delivery"))
      case (Some(a), Some(d)) =>
        (match (DecodeAnswer(a), DecodeDelivery(d))
         case (Some(answer), Some(delivery)) =>
           Some(Offer(Foreign(v.fields, ["answer", "delivery"]), answer, delivery))
         case _ => None)
      case _ => None
  }

  function DecodeOffers(values: seq<Value>): Option<seq<Offer>> {
    if values == [] then Some([])
    else match (DecodeOffer(values[0]), DecodeOffers(values[1..]))
      case (Some(first), Some(rest)) => Some([first] + rest)
      case _ => None
  }

  function DecodePage(v: Value): Option<AnswerPage> {
    if !v.Obj? then None
    else match (Find(v.fields, "items"), Find(v.fields, "truncated"))
      case (Some(Arr(values)), Some(Bool(truncated))) =>
        (match DecodeOffers(values)
         case Some(items) => Some(Packing.Page(items, truncated))
         case None => None)
      case _ => None
  }

  // ---- Which pages can be told from their JSON value this way ----

  /** No foreign field goes under one of these names. */
  predicate Apart(extra: seq<Field>, names: seq<string>) {
    forall i :: 0 <= i < |extra| ==> extra[i].key !in names
  }

  predicate OwnNames(o: Offer) {
    && Apart(o.extra, ["answer", "delivery"])
    && Apart(o.answer.extra, ANSWER_NAMES) && Apart(o.delivery.extra, DELIVERY_NAMES)
  }

  predicate AllOwnNames(p: AnswerPage) {
    forall i :: 0 <= i < |p.items| ==> OwnNames(p.items[i])
  }

  // ---- Finding a field among foreign ones ----

  ghost predicate Named(fields: seq<Field>, names: seq<string>) {
    |fields| == |names| && forall i :: 0 <= i < |fields| ==> fields[i].key == names[i]
  }

  ghost predicate Distinct(names: seq<string>) {
    forall i, j :: 0 <= i < j < |names| ==> names[i] != names[j]
  }

  ghost predicate Within(names: seq<string>, all: seq<string>) {
    forall i :: 0 <= i < |names| ==> names[i] in all
  }

  lemma {:induction false} FindPast(extra: seq<Field>, rest: seq<Field>, key: string)
    requires forall i :: 0 <= i < |extra| ==> extra[i].key != key
    ensures Find(extra + rest, key) == Find(rest, key)
  {
    if extra == [] {
      JoinNothing(rest);
    } else {
      TailJoin(extra, rest);
      FindPast(extra[1..], rest, key);
    }
  }

  lemma {:induction false} FindNamed(fields: seq<Field>, names: seq<string>, i: nat)
    requires Named(fields, names) && Distinct(names) && i < |names|
    ensures Find(fields, names[i]) == Some(fields[i].value)
  {
    if i > 0 {
      assert names[0] != names[i];
      FindNamed(fields[1..], names[1..], i - 1);
    }
  }

  lemma {:induction false} FindNone(fields: seq<Field>, key: string)
    requires forall i :: 0 <= i < |fields| ==> fields[i].key != key
    ensures Find(fields, key) == None
  {
    if fields != [] { FindNone(fields[1..], key); }
  }

  lemma {:induction false} ForeignNone(fields: seq<Field>, all: seq<string>)
    requires forall i :: 0 <= i < |fields| ==> fields[i].key in all
    ensures Foreign(fields, all) == []
  {
    if fields != [] { ForeignNone(fields[1..], all); }
  }

  lemma {:induction false} ForeignPast(extra: seq<Field>, rest: seq<Field>, all: seq<string>)
    requires Apart(extra, all) && Foreign(rest, all) == []
    ensures Foreign(extra + rest, all) == extra
  {
    if extra == [] {
      JoinNothing(rest);
    } else {
      TailJoin(extra, rest);
      ForeignPast(extra[1..], rest, all);
      HeadTail(extra);
    }
  }

  /** Behind foreign fields that keep apart, every own field is found under its name and the foreign ones are left. */
  lemma OwnFields(extra: seq<Field>, own: seq<Field>, names: seq<string>, all: seq<string>)
    requires Apart(extra, all) && Named(own, names) && Distinct(names) && Within(names, all)
    ensures forall i :: 0 <= i < |names| ==> Find(extra + own, names[i]) == Some(own[i].value)
    ensures forall key :: key in all && key !in names ==> Find(extra + own, key) == None
    ensures Foreign(extra + own, all) == extra
  {
    forall i | 0 <= i < |names| ensures Find(extra + own, names[i]) == Some(own[i].value) {
      FindPast(extra, own, names[i]);
      FindNamed(own, names, i);
    }
    forall key | key in all && key !in names ensures Find(extra + own, key) == None {
      FindPast(extra, own, key);
      FindNone(own, key);
    }
    ForeignNone(own, all);
    ForeignPast(extra, own, all);
  }

  lemma {:induction false} DigitsBack(n: nat)
    ensures ReadDigits(Decimal(n)) == Some(n) && Decimal(n) != ""
  {
    var s := Decimal(n);
    if n < 10 {
      assert s[..0] == "";
    } else {
      DigitsBack(n / 10);
      assert s[..|s| - 1] == Decimal(n / 10);
    }
  }

  // ---- Every record is read back ----

  lemma DeliveryNames(d: Delivery)
    ensures Named(DeliveryFields(d), DELIVERY_NAMES) && DeliveryValues(DeliveryFields(d), d)
  {
  }

  lemma DeliveryDistinct()
    ensures Distinct(DELIVERY_NAMES)
  {
    var n := DELIVERY_NAMES;
    assert |n[0]| == 14 && |n[1]| == 9 && |n[2]| == 11 && |n[3]| == 14 && |n[4]| == 12 && |n[5]| == 9;
    assert |n[6]| == 10 && |n[7]| == 5 && |n[8]| == 8 && |n[9]| == 15 && |n[10]| == 15 && |n[11]| == 5;
    assert n[0][0] != n[3][0] && n[1][0] != n[5][0] && n[7][0] != n[11][0] && n[9][0] != n[10][0];
  }

  lemma StateBack(s: DeliveryState)
    ensures DecodeState(StateName(s)) == Some(s)
  {
    assert |"queued"| == 6 && |"offered"| == 7 && |"acknowledged"| == 12;
  }

  /** The own fields of a record, found one by one under `n`. */
  ghost predicate DeliveryFound(f: seq<Field>, n: seq<string>, d: Delivery)
    requires |n| == 12
  {
    && Count(f, n[0]) == Some(d.schemaVersion) && Count(f, n[8]) == Some(d.attempts)
    && Text(f, n[1]) == Some(d.answerId) && Text(f, n[2]) == Some(d.targetHost)
    && Text(f, n[3]) == Some(d.targetSession) && Text(f, n[4]) == Some(d.targetActor)
    && Text(f, n[5]) == Some(d.transport) && Text(f, n[6]) == Some(d.messageId)
    && Text(f, n[7]) == Some(StateName(d.state))
    && MaybeText(f, n[9]) == Some(d.lastAttemptAt) && MaybeText(f, n[10]) == Some(d.acknowledgedAt)
    && MaybeText(f, n[11]) == Some(d.error) && Foreign(f, n) == d.extra
  }

  ghost predicate DeliveryValues(own: seq<Field>, d: Delivery) {
    && |own| == 12 && own[0].value == Number(d.schemaVersion) && own[8].value == Number(d.attempts)
    && own[1].value == Str(d.answerId) && own[2].value == Str(d.targetHost)
    && own[3].value == Str(d.targetSession) && own[4].value == Str(d.targetActor)
    && own[5].value == Str(d.transport) && own[6].value == Str(d.messageId)
    && own[7].value == Str(StateName(d.state))
    && own[9].value == Maybe(d.lastAttemptAt) && own[10].value == Maybe(d.acknowledgedAt)
    && own[11].value == Maybe(d.error)
  }

  lemma CountNumber(f: seq<Field>, key: string, n: nat)
    requires Find(f, key) == Some(Number(n))
    ensures Count(f, key) == Some(n)
  {
    DigitsBack(n);
  }

  /** Every name leads to the field beside it. */
  ghost predicate Leads(f: seq<Field>, own: seq<Field>, n: seq<string>) {
    |n| == |own| && forall i :: 0 <= i < |n| ==> Find(f, n[i]) == Some(own[i].value)
  }

  lemma DeliveryFinds(d: Delivery, f: seq<Field>, own: seq<Field>, n: seq<string>)
    requires DeliveryValues(own, d) && Leads(f, own, n) && Foreign(f, n) == d.extra
    ensures DeliveryFound(f, n, d)
  {
    CountNumber(f, n[0], d.schemaVersion);
    CountNumber(f, n[8], d.attempts);
  }

  lemma DeliveryDecodes(f: seq<Field>, n: seq<string>, d: Delivery)
    requires n == DELIVERY_NAMES && DeliveryFound(f, n, d)
    ensures DecodeDelivery(Obj(f)) == Some(d)
  {
    StateBack(d.state);
  }

  lemma DeliveryFrom(d: Delivery, own: seq<Field>, n: seq<string>)
    requires n == DELIVERY_NAMES && Apart(d.extra, n) && Named(own, n) && Distinct(n) && DeliveryValues(own, d)
    ensures DecodeDelivery(Obj(d.extra + own)) == Some(d)
  {
    OwnFields(d.extra, own, n, n);
    DeliveryFinds(d, d.extra + own, own, n);
    DeliveryDecodes(d.extra + own, n, d);
  }

  lemma DeliveryBack(d: Delivery)
    requires Apart(d.extra, DELIVERY_NAMES)
    ensures DecodeDelivery(DeliveryValue(d)) == Some(d)
  {
    DeliveryNames(d);
    DeliveryDistinct();
    DeliveryFrom(d, DeliveryFields(d), DELIVERY_NAMES);
  }

  ghost predicate AnswerFound(f: seq<Field>, n: seq<string>, a: Answer)
    requires |n| == 12
  {
    && Count(f, n[0]) == Some(a.schemaVersion) && Count(f, n[3]) == Some(a.requestRevision)
    && Text(f, n[1]) == Some(a.id) && Text(f, n[2]) == Some(a.requestId) && Text(f, n[4]) == Some(a.action)
    && MaybeText(f, n[5]) == Some(a.optionId) && MaybeText(f, n[6]) == Some(a.text)
    && Text(f, n[7]) == Some(a.actor) && MaybeText(f, n[8]) == Some(a.sourceHost)
    && Text(f, n[9]) == Some(a.channel) && Text(f, n[10]) == Some(a.answeredAt)
    && Text(f, n[11]) == Some(a.operationId) && Foreign(f, n) == a.extra
  }

  /** The own values of an answer, of which the source host may be missing. */
  ghost predicate AnswerValues(own: seq<Field>, a: Answer) {
    && |own| == (if a.sourceHost.Some? then 12 else 11)
    && own[0].value == Number(a.schemaVersion) && own[3].value == Number(a.requestRevision)
    && own[1].value == Str(a.id) && own[2].value == Str(a.requestId) && own[4].value == Str(a.action)
    && own[5].value == Maybe(a.optionId) && own[6].value == Maybe(a.text) && own[7].value == Str(a.actor)
    && (a.sourceHost.Some? ==> own[8].value == Str(a.sourceHost.value))
    && own[|own| - 3].value == Str(a.channel) && own[|own| - 2].value == Str(a.answeredAt)
    && own[|own| - 1].value == Str(a.operationId)
  }

  function WithoutSource(n: seq<string>): seq<string>
    requires |n| == 12
  {
    [n[0], n[1], n[2], n[3], n[4], n[5], n[6], n[7], n[9], n[10], n[11]]
  }

  lemma AnswerFinds(a: Answer, f: seq<Field>, own: seq<Field>, n: seq<string>)
    requires a.sourceHost.Some? && AnswerValues(own, a) && Leads(f, own, n) && Foreign(f, n) == a.extra
    ensures AnswerFound(f, n, a)
  {
    CountNumber(f, n[0], a.schemaVersion);
    CountNumber(f, n[3], a.requestRevision);
  }

  /** `less` is `n` without the source host. */
  ghost predicate Lacks(n: seq<string>, less: seq<string>) {
    && |n| == 12 && |less| == 11 && less[0] == n[0] && less[1] == n[1] && less[2] == n[2] && less[3] == n[3]
    && less[4] == n[4] && less[5] == n[5] && less[6] == n[6] && less[7] == n[7]
    && less[8] == n[9] && less[9] == n[10] && less[10] == n[11]
  }

  lemma LacksMeans(n: seq<string>, less: seq<string>)
    requires Lacks(n, less) && Distinct(n)
    ensures Distinct(less) && Within(less, n) && n[8] in n && n[8] !in less
  {
    forall i | 0 <= i < 11 ensures less[i] == n[if i < 8 then i else i + 1] {
    }
  }

  lemma AnswerFindsLess(a: Answer, f: seq<Field>, own: seq<Field>, n: seq<string>, less: seq<string>)
    requires a.sourceHost.None? && Lacks(n, less) && Find(f, n[8]) == None
    requires AnswerValues(own, a) && Leads(f, own, less) && Foreign(f, n) == a.extra
    ensures AnswerFound(f, n, a)
  {
    CountNumber(f, less[0], a.schemaVersion);
    CountNumber(f, less[3], a.requestRevision);
  }

  lemma AnswerDistinct()
    ensures Distinct(ANSWER_NAMES)
  {
    var n := ANSWER_NAMES;
    assert |n[0]| == 14 && |n[1]| == 2 && |n[2]| == 10 && |n[3]| == 16 && |n[4]| == 6 && |n[5]| == 9;
    assert |n[6]| == 4 && |n[7]| == 5 && |n[8]| == 11 && |n[9]| == 7 && |n[10]| == 11 && |n[11]| == 12;
    assert n[8][0] != n[10][0];
  }

  lemma AnswerNames(a: Answer)
    ensures var own := AnswerHead(a) + AnswerTail(a);
      && AnswerValues(own, a)
      && Named(own, if a.sourceHost.Some? then ANSWER_NAMES else WithoutSource(ANSWER_NAMES))
  {
  }

  lemma AnswerDecodes(f: seq<Field>, n: seq<string>, a: Answer)
    requires n == ANSWER_NAMES && AnswerFound(f, n, a)
    ensures DecodeAnswer(Obj(f)) == Some(a)
  {
  }

  lemma AnswerBack(a: Answer)
    requires Apart(a.extra, ANSWER_NAMES)
    ensures DecodeAnswer(AnswerValue(a)) == Some(a)
  {
    var own, n := AnswerHead(a) + AnswerTail(a), ANSWER_NAMES;
    AnswerNames(a);
    AnswerDistinct();
    if a.sourceHost.Some? {
      OwnFields(a.extra, own, n, n);
      AnswerFinds(a, a.extra + own, own, n);
    } else {
      var less := WithoutSource(n);
      LacksMeans(n, less);
      OwnFields(a.extra, own, less, n);
      AnswerFindsLess(a, a.extra + own, own, n, less);
    }
    AnswerDecodes(a.extra + own, n, a);
    Group2(a.extra, AnswerHead(a), AnswerTail(a));
  }

  lemma TwoNamed(extra: seq<Field>, j: string, v: Value, k: string, w: Value)
    requires j != k && Apart(extra, [j, k])
    ensures var f := extra + [Field(j, v), Field(k, w)];
      Find(f, j) == Some(v) && Find(f, k) == Some(w) && Foreign(f, [j, k]) == extra
  {
    var own, names := [Field(j, v), Field(k, w)], [j, k];
    OwnFields(extra, own, names, names);
    assert names[0] == j && names[1] == k && own[0].value == v && own[1].value == w;
  }

  lemma OfferBack(o: Offer)
    requires OwnNames(o)
    ensures DecodeOffer(OfferValue(o)) == Some(o)
  {
    assert |"answer"| == 6 && |"delivery"| == 8;
    AnswerBack(o.answer);
    DeliveryBack(o.delivery);
    TwoNamed(o.extra, "answer", AnswerValue(o.answer), "delivery", DeliveryValue(o.delivery));
  }

  lemma {:induction false} OffersBack(items: seq<Offer>)
    requires forall i :: 0 <= i < |items| ==> OwnNames(items[i])
    ensures DecodeOffers(OfferValues(items)) == Some(items)
  {
    if items != [] {
      OfferBack(items[0]);
      OffersBack(items[1..]);
      HeadTail(items);
      assert OfferValues(items)[1..] == OfferValues(items[1..]);
    }
  }

  /** Every page is read back from its JSON value, each field under its own name. */
  lemma PageBack(p: AnswerPage)
    requires AllOwnNames(p)
    ensures DecodePage(PageValue(p)) == Some(p)
  {
    assert |"items"| == 5 && |"truncated"| == 9;
    OffersBack(p.items);
    TwoNamed([], "items", Arr(OfferValues(p.items)), "truncated", Bool(p.truncated));
    JoinNothing(PageValue(p).fields);
  }
}
