/**
 What the guard hook's reply guarantees: its size, what its data block decodes to, and when an answer can
 be written off because no reply whatever could carry it.
 */
module AnswerGuarantees {
  import opened Basics
  import opened Json
  import opened Packing
  import opened AnswerRecords
  import opened AnswerReply
  import opened AnswerDecode

  // ---- The context-free size test ----

  /** The answer alone, escaped as inside `additionalContext`; the two outer quotes are not counted. */
  predicate ExceedsAnyEnvelope(o: Offer) {
    var answer := Encode(Harden, Print(Escape, AnswerValue(o.answer)));
    Bytes(Quoted(Escape, answer)) - 2 > MAX_OFFER_BYTES
  }

  function AnswerSize(a: Answer): nat {
    Size(true, Print(Escape, AnswerValue(a)))
  }

  lemma QuotedBytes(s: string)
    ensures Bytes(Quoted(Escape, s)) == Bytes(Encode(Escape, s)) + 2
  {
    Bytes3("\"", Encode(Escape, s), "\"");
    AsciiBytes("\"");
  }

  lemma ExceedsIff(o: Offer)
    ensures ExceedsAnyEnvelope(o) <==> AnswerSize(o.answer) > 8192
  {
    QuotedBytes(Encode(Harden, Print(Escape, AnswerValue(o.answer))));
  }

  lemma FieldSize(wire: bool, field: Field)
    ensures Size(wire, Print(Escape, field.value)) <= Size(wire, PrintField(Escape, field))
  {
    Size3(wire, Quoted(Escape, field.key), ":", Print(Escape, field.value));
  }

  lemma {:induction false} FieldWithin(wire: bool, fields: seq<Field>, i: nat)
    requires i < |fields|
    ensures Size(wire, Print(Escape, fields[i].value)) <= Size(wire, PrintFields(Escape, fields))
    decreases |fields|
  {
    FieldSize(wire, fields[0]);
    if |fields| > 1 {
      Size3(wire, PrintField(Escape, fields[0]), ",", PrintFields(Escape, fields[1..]));
      if i > 0 { FieldWithin(wire, fields[1..], i - 1); }
    }
  }

  lemma ObjectSize(wire: bool, fields: seq<Field>)
    ensures Size(wire, PrintFields(Escape, fields)) <= Size(wire, Print(Escape, Obj(fields)))
  {
    Size3(wire, "{", PrintFields(Escape, fields), "}");
  }

  lemma AnswerWithinOffer(o: Offer)
    ensures AnswerSize(o.answer) <= OfferSize(true, o)
  {
    var parts := [Field("answer", AnswerValue(o.answer)), Field("delivery", DeliveryValue(o.delivery))];
    var fields := o.extra + parts;
    assert fields[|o.extra|] == parts[0];
    FieldWithin(true, fields, |o.extra|);
    ObjectSize(true, fields);
  }

  lemma {:induction false} ItemWithin<T>(size: T -> nat, items: seq<T>, i: nat)
    requires i < |items|
    ensures size(items[i]) <= Total(size, items)
  {
    if i > 0 { ItemWithin(size, items[1..], i - 1); }
  }

  /** An answer that exceeds the context-free bound is in no acceptable reply: not for any event, prefix
      or wording, not alone and not beside others, and not after its delivery record changes. */
  lemma NeverDeliverable(o: Offer, p: AnswerPage, i: nat, h: Hook)
    requires ExceedsAnyEnvelope(o)
    requires i < |p.items| && p.items[i].answer == o.answer
    ensures !Accepts(p, h)
  {
    ExceedsIff(o);
    AnswerWithinOffer(p.items[i]);
    ItemWithin(SizeOf(true), p.items, i);
    ReplySize(p, h);
  }

  // ---- The reply as a whole ----

  /** The tail of the guard hook: the committed offers are fitted again and rendered. */
  method GuardReply(offered: AnswerPage, h: Hook) returns (reply: Option<string>)
    ensures reply == AnswerOutput(Fit(SizeOf(true), offered, Room(h)), h)
    ensures reply.Some? ==> Bytes(reply.value) <= MAX_OFFER_BYTES
  {
    var fitted := FitAnswers(offered, h);
    FitMeaning(SizeOf(true), offered, Room(h));
    AcceptsIff(fitted, h);
    reply := AnswerOutput(fitted, h);
  }

  /** Every answer the store committed as offered is in the reply: if the committed offers are some of the
      selected ones, unchanged and in order, fitting them again drops none of them. */
  lemma CommittedOffersAreShown(selected: AnswerPage, offered: AnswerPage, h: Hook)
    requires Accepts(selected, h)
    requires Subsequence(offered.items, selected.items) && offered.truncated == selected.truncated
    ensures Fit(SizeOf(true), offered, Room(h)) == offered
  {
    AcceptsIff(selected, h);
    var size, room := SizeOf(true), Room(h);
    ShownWithin(size, selected, offered, room);
  }

  lemma ShownWithin<T>(size: T -> nat, selected: Page<T>, offered: Page<T>, room: int)
    requires Load(size, selected) <= room
    requires Subsequence(offered.items, selected.items) && offered.truncated == selected.truncated
    ensures Fit(size, offered, room) == offered
  {
    SubsequenceTotal(size, offered.items, selected.items);
    FitAll(size, offered, room);
  }

  // ---- The data block ----

  /** The data has no markup character and reads back as exactly this page and no other, each field under its name. */
  lemma DataRoundTrip(p: AnswerPage)
    requires SoundPage(p)
    ensures forall c <- Data(p) :: !Markup(c)
    ensures Parse(Data(p)) == Some(PageValue(p))
    ensures forall q: AnswerPage :: Parse(Data(p)) == Some(PageValue(q)) ==> q == p
    ensures AllOwnNames(p) ==> DecodePage(Parse(Data(p)).value) == Some(p)
  {
    if AllOwnNames(p) { PageBack(p); }
    PageWellFormed(p);
    var v := PageValue(p);
    HardenPrint(v);
    PrintClean(v);
    ParsePrint(v);
    forall q: AnswerPage | PageValue(p) == PageValue(q) ensures q == p { PageInjective(p, q); }
  }

  /** Position of the first `<`, or the length. */
  function FirstTag(s: string): (n: nat)
    ensures n <= |s|
  {
    if s == [] || s[0] == '<' then 0 else 1 + FirstTag(s[1..])
  }

  lemma {:induction false} FirstTagAfter(a: string, b: string)
    requires Tagless(a) && b != [] && b[0] == '<'
    ensures FirstTag(a + b) == |a|
  {
    if a == [] {
      assert a + b == b;
    } else {
      assert (a + b)[1..] == a[1..] + b;
      FirstTagAfter(a[1..], b);
    }
  }

  /** How a reader finds the data: after the first tag and its line end, up to the line end before the next. */
  function Block(context: string): Option<string> {
    var i := FirstTag(context);
    var start := i + |OPEN_TAG| - 1;
    if start > |context| then None
    else
      var rest := context[start..];
      var j := FirstTag(rest);
      if j == 0 then None else Some(rest[..j - 1])
  }

  predicate TaglessWording(w: Wording) {
    Tagless(w.preamble) && Tagless(w.beforeCommand) && Tagless(w.afterCommand) && Tagless(w.noCommand)
  }

  lemma MarkupTagless(s: string)
    requires forall c <- s :: !Markup(c)
    ensures Tagless(s)
  {
    forall i | 0 <= i < |s| ensures s[i] != '<' && s[i] != '>' { assert !Markup(s[i]); }
  }

  lemma TaglessAppend(a: string, b: string)
    requires Tagless(a) && Tagless(b)
    ensures Tagless(a + b)
  {
  }

  lemma HeadTagless(h: Hook)
    requires TaglessWording(h.wording)
    ensures Tagless(Head(h))
  {
    CleanTagless(h.commands.text + " " + h.wording.acknowledge, 0, NEXT_PAGE_LIMIT);
    var command := Runnable(h.commands, h.wording.acknowledge);
    if command.Some? {
      assert Tagless(command.value);
      TaglessAppend(h.wording.beforeCommand, command.value);
      TaglessAppend(h.wording.beforeCommand + command.value, h.wording.afterCommand);
    }
    TaglessAppend(h.wording.preamble, Acknowledge(h));
  }

  lemma BlockOf(head: string, data: string, open: string, close: string)
    requires Tagless(head) && Tagless(data)
    requires |open| == |OPEN_TAG| && open[0] == '\n' && open[1] == '<'
    requires |close| > 1 && close[0] == '\n' && close[1] == '<'
    ensures Block(head + open + data + close) == Some(data)
  {
    var context := head + open + data + close;
    var lead := head + [open[0]];
    assert context == lead + (open[1..] + data + close);
    TaglessAppend(head, [open[0]]);
    FirstTagAfter(lead, open[1..] + data + close);
    var rest := context[|lead| + |OPEN_TAG| - 1..];
    assert rest == (data + [close[0]]) + close[1..];
    TaglessAppend(data, [close[0]]);
    FirstTagAfter(data + [close[0]], close[1..]);
    assert rest[..|data|] == data;
  }

  /** How many tags begin in a text. */
  function Tags(s: string): nat {
    if s == [] then 0 else (if s[0] == '<' then 1 else 0) + Tags(s[1..])
  }

  lemma {:induction false} TagsJoin(a: string, b: string)
    ensures Tags(a + b) == Tags(a) + Tags(b)
  {
    if a == [] {
      JoinNothing(b);
    } else {
      TailJoin(a, b);
      TagsJoin(a[1..], b);
    }
  }

  lemma {:induction false} TagsNone(s: string)
    requires forall i :: 0 <= i < |s| ==> s[i] != '<'
    ensures Tags(s) == 0
  {
    if s != [] { TagsNone(s[1..]); }
  }

  /** A tag on a line of its own. */
  predicate TagLine(s: string) {
    |s| >= 2 && s[0] != '<' && s[1] == '<' && forall i :: 2 <= i < |s| ==> s[i] != '<'
  }

  lemma OpenTagLine()
    ensures TagLine(OPEN_TAG)
  {
  }

  lemma CloseTagLine()
    ensures TagLine(CLOSE_TAG)
  {
  }

  lemma TagsOne(s: string)
    requires TagLine(s)
    ensures Tags(s) == 1
  {
    TagsNone(s[2..]);
    DropDrop(s, 1, 1);
  }

  /** Two tags in all, so one block and nothing like one after it. */
  lemma BlockTags(head: string, data: string, open: string, close: string)
    requires Tagless(head) && Tagless(data) && TagLine(open) && TagLine(close)
    ensures Tags(head + open + data + close) == 2
  {
    TagsNone(head);
    TagsNone(data);
    TagsOne(open);
    TagsOne(close);
    TagsJoin(head, open);
    TagsJoin(head + open, data);
    TagsJoin(head + open + data, close);
  }

  /** The context has one data block, whatever the answers say: two tags in all, and the data between them. */
  lemma ContextBlock(p: AnswerPage, h: Hook)
    requires SoundPage(p) && TaglessWording(h.wording)
    ensures Block(Context(p, h)) == Some(Data(p)) && Tags(Context(p, h)) == 2
    ensures Context(p, h) ==
      h.wording.preamble + Acknowledge(h) + "\n<untrusted_answer_data>\n" + Data(p) + "\n</untrusted_answer_data>"
  {
    DataRoundTrip(p);
    HeadTagless(h);
    MarkupTagless(Data(p));
    OpenTagLine();
    CloseTagLine();
    BlockOf(Head(h), Data(p), OPEN_TAG, CLOSE_TAG);
    BlockTags(Head(h), Data(p), OPEN_TAG, CLOSE_TAG);
  }

  /** How a reader takes a reply apart: the event and the context by name, the data block, the page in it. */
  function ReadReply(reply: string): Option<(string, AnswerPage)> {
    match Parse(reply)
    case Some(Obj(top)) =>
      (match Find(top, "hookSpecificOutput")
       case Some(Obj(inner)) =>
         (match (Find(inner, "additionalContext"), Find(inner, "hookEventName"))
          case (Some(Str(context)), Some(Str(event))) =>
            (match ReadContext(context)
             case Some(page) => Some((event, page))
             case None => None)
          case _ => None)
       case _ => None)
    case _ => None
  }

  function ReadContext(context: string): Option<AnswerPage> {
    match Block(context)
    case None => None
    case Some(data) =>
      match Parse(data)
      case Some(v) => DecodePage(v)
      case None => None
  }

  lemma ContextReads(p: AnswerPage, h: Hook)
    requires SoundPage(p) && TaglessWording(h.wording) && AllOwnNames(p)
    ensures ReadContext(Context(p, h)) == Some(p)
  {
    DataRoundTrip(p);
    ContextBlock(p, h);
  }

  lemma EnvelopeReads(reply: string, context: string, event: string, p: AnswerPage)
    requires Parse(reply) == Some(Envelope(context, event)) && ReadContext(context) == Some(p)
    ensures ReadReply(reply) == Some((event, p))
  {
    var inner := [Field("additionalContext", Str(context)), Field("hookEventName", Str(event))];
    assert |"additionalContext"| == 17 && |"hookEventName"| == 13;
    TwoNamed([], "additionalContext", Str(context), "hookEventName", Str(event));
    JoinNothing(inner);
  }

  /** End to end: the reply is one line of JSON, its context has one data block whatever the answers say, and a reader
      that knows only the names gets back the event and the page that was rendered. */
  lemma ReplyRoundTrip(p: AnswerPage, h: Hook)
    requires SoundPage(p) && p.items != [] && TaglessWording(h.wording)
    ensures var reply := AnswerOutput(p, h).value;
      && reply != "" && reply[|reply| - 1] == '\n'
      && Parse(reply[..|reply| - 1]) == Some(Envelope(Context(p, h), h.event))
      && Block(Context(p, h)) == Some(Data(p)) && Tags(Context(p, h)) == 2
      && Parse(Data(p)) == Some(PageValue(p))
      && (AllOwnNames(p) ==> ReadReply(reply[..|reply| - 1]) == Some((h.event, p)))
  {
    var text := Print(Escape, Envelope(Context(p, h), h.event));
    ParsePrint(Envelope(Context(p, h), h.event));
    CutLeft(text, "\n", |text|);
    DataRoundTrip(p);
    ContextBlock(p, h);
    if AllOwnNames(p) {
      ContextReads(p, h);
      EnvelopeReads(text, Context(p, h), h.event, p);
    }
  }
}
