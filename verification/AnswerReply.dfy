/**
 The guard hook's reply: a page of answers rendered as a hardened JSON block inside the hook's own JSON
 envelope, packed greedily under a byte budget, and the test for answers no reply can ever carry.
 */
module AnswerReply {
  import opened Basics
  import opened Json
  import opened AnswerRecords
  import opened Packing

  const MAX_OFFER_BYTES: nat := 8192
  const NEXT_PAGE_LIMIT: nat := 512

  // ---- The acknowledgement command shown beside the data ----

  /** `provenant` with the state directory the hook used; `shown` is false when that directory cannot
      be quoted faithfully. */
  datatype CommandPrefix = CommandPrefix(text: string, shown: bool)

  function CleanChar(c: char): char {
    if c == '<' || c == '>' || c == '`' then '_' else if Control(c) then ' ' else c
  }

  /** `used` is the byte length already written. */
  function Clean(text: string, used: nat, limit: nat): string {
    if text == [] then []
    else
      var c := CleanChar(text[0]);
      if used + Width(c) > limit then "~" else [c] + Clean(text[1..], used + Width(c), limit)
  }

  function Runnable(commands: CommandPrefix, rest: string): Option<string> {
    var command := commands.text + " " + rest;
    if commands.shown && Clean(command, 0, NEXT_PAGE_LIMIT) == command then Some(command) else None
  }

  predicate Tagless(s: string) {
    forall i :: 0 <= i < |s| ==> s[i] != '<' && s[i] != '>'
  }

  lemma {:induction false} CleanTagless(text: string, used: nat, limit: nat)
    ensures Tagless(Clean(text, used, limit))
  {
    if text != [] { CleanTagless(text[1..], used + Width(CleanChar(text[0])), limit); }
  }

  /** No character that cleaning replaces: no angle bracket, backquote or control character. */
  predicate Harmless(s: string) {
    forall i :: 0 <= i < |s| ==>
      s[i] != '<' && s[i] != '>' && s[i] != '`' && 0x20 <= s[i] as int && !(0x7f <= s[i] as int < 0xa0)
  }

  /**
   Cleaning leaves a text as it is exactly if it is harmless and within the limit, or one byte over it with the tilde at
   its end that cleaning would put there.
   */
  lemma {:induction false} CleanExactly(text: string, used: nat, limit: nat)
    requires used <= limit
    ensures Clean(text, used, limit) == text <==>
      && Harmless(text)
      && (used + Bytes(text) <= limit ||
          (text != "" && text[|text| - 1] == '~' && used + Bytes(text) == limit + 1))
    decreases |text|
  {
    if text != "" {
      var c, rest := CleanChar(text[0]), text[1..];
      HeadTail(text);
      CharHarmless(text[0]);
      assert Harmless(text) <==> Harmless([text[0]]) && Harmless(rest) by {
        forall i | 0 < i < |text| ensures text[i] == rest[i - 1] {}
        assert [text[0]][0] == text[0];
      }
      if used + Width(c) <= limit {
        CleanExactly(rest, used + Width(c), limit);
        assert ([c] + Clean(rest, used + Width(c), limit))[1..] == Clean(rest, used + Width(c), limit);
        assert rest != "" ==> text[|text| - 1] == rest[|rest| - 1];
      } else {
        PositiveBytes(rest);
        assert "~"[0] == '~' && |"~"| == 1;
      }
    }
  }

  lemma CharHarmless(c: char)
    ensures CleanChar(c) == c <==> Harmless([c])
  {
    assert [c][0] == c;
  }

  lemma PositiveBytes(s: string)
    ensures s != "" ==> Bytes(s) > 0
  {
  }

  /** Character by character: an underscore for each bracket or backquote, a space for each control character, and a
      tilde, at most, where the text is cut. */
  lemma {:induction false} CleanEach(text: string, used: nat, limit: nat, i: nat)
    requires i < |Clean(text, used, limit)|
    ensures |Clean(text, used, limit)| <= |text|
    ensures var (c, d) := (text[i], Clean(text, used, limit)[i]);
      || d == (if c == '<' || c == '>' || c == '`' then '_'
               else if c as int < 0x20 || 0x7f <= c as int < 0xa0 then ' ' else c)
      || (i == |Clean(text, used, limit)| - 1 && d == '~')
    decreases |text|
  {
    var c := CleanChar(text[0]);
    if used + Width(c) <= limit {
      var rest := Clean(text[1..], used + Width(c), limit);
      if rest != "" { CleanEach(text[1..], used + Width(c), limit, if i == 0 then 0 else i - 1); }
    }
  }

  // ---- The reply text ----

  /** The fixed prose around the data. The results below hold for every wording without tags. */
  datatype Wording = Wording(
    preamble: string, beforeCommand: string, acknowledge: string, afterCommand: string, noCommand: string)

  /** One hook invocation: the event being answered, the command prefix and the prose. */
  datatype Hook = Hook(event: string, commands: CommandPrefix, wording: Wording)

  const OPEN_TAG := "\n<untrusted_answer_data>\n"
  const CLOSE_TAG := "\n</untrusted_answer_data>"

  function Acknowledge(h: Hook): string {
    match Runnable(h.commands, h.wording.acknowledge)
    case Some(command) => h.wording.beforeCommand + command + h.wording.afterCommand
    case None => h.wording.noCommand
  }

  /**
   The acknowledgement command is shown, as it is to be run, exactly if its directory can be quoted and the command is
   harmless and within 512 bytes; a command of 513 bytes is shown if it ends with a tilde. Otherwise a note says so.
   */
  lemma AcknowledgeExactly(h: Hook)
    ensures var command := h.commands.text + " " + h.wording.acknowledge;
      Acknowledge(h) ==
      if && h.commands.shown && Harmless(command)
         && (Bytes(command) <= 512 || (command[|command| - 1] == '~' && Bytes(command) == 513))
      then h.wording.beforeCommand + command + h.wording.afterCommand
      else h.wording.noCommand
  {
    CleanExactly(h.commands.text + " " + h.wording.acknowledge, 0, NEXT_PAGE_LIMIT);
  }

  /** The page as serialised, before hardening. */
  function PageText(p: AnswerPage): string {
    Print(Escape, PageValue(p))
  }

  function Data(p: AnswerPage): string {
    Encode(Harden, PageText(p))
  }

  function Head(h: Hook): string {
    h.wording.preamble + Acknowledge(h)
  }

  function Context(p: AnswerPage, h: Hook): string {
    Head(h) + OPEN_TAG + Data(p) + CLOSE_TAG
  }

  const OUTPUT := "hookSpecificOutput"
  const CONTEXT := "additionalContext"
  const EVENT := "hookEventName"

  function Envelope(context: string, event: string): Value {
    Obj([Field(OUTPUT,
               Obj([Field(CONTEXT, Str(context)), Field(EVENT, Str(event))]))])
  }

  function AnswerOutput(p: AnswerPage, h: Hook): Option<string> {
    if p.items == [] then None else Some(Print(Escape, Envelope(Context(p, h), h.event)) + "\n")
  }

  // ---- Sizes: one additive measure for stored text and for text as it travels ----

  /** A text as it appears inside `additionalContext`: hardened, then escaped by the outer encoding. */
  function Wire(s: string): string {
    Encode(Escape, Encode(Harden, s))
  }

  function Size(wire: bool, s: string): nat {
    Bytes(if wire then Wire(s) else s)
  }

  lemma SizeAppend(wire: bool, a: string, b: string)
    ensures Size(wire, a + b) == Size(wire, a) + Size(wire, b)
  {
    EncodeAppend(Harden, a, b);
    EncodeAppend(Escape, Encode(Harden, a), Encode(Harden, b));
    BytesAppend(a, b);
    BytesAppend(Wire(a), Wire(b));
  }

  lemma Size3(wire: bool, a: string, b: string, c: string)
    ensures Size(wire, a + b + c) == Size(wire, a) + Size(wire, b) + Size(wire, c)
  {
    SizeAppend(wire, a + b, c);
    SizeAppend(wire, a, b);
  }

  /** No character gets shorter on the wire. */
  lemma {:induction false} WireGrows(s: string)
    ensures Bytes(s) <= Size(true, s)
  {
    if s != [] {
      assert [s[0]] + s[1..] == s;
      SizeAppend(true, [s[0]], s[1..]);
      BytesAppend([s[0]], s[1..]);
      CharGrows(s[0]);
      WireGrows(s[1..]);
    }
  }

  lemma CharGrows(c: char)
    ensures Bytes([c]) <= Size(true, [c])
  {
    var h := Encode(Harden, [c]);
    EncodeSingle(Harden, c);
    if Markup(c) {
      assert h[0] == '\\' && h[1..] == h[1..];
      assert Encode(Escape, h) == Escape(h[0]) + Encode(Escape, h[1..]);
      BytesAppend(Escape(h[0]), Encode(Escape, h[1..]));
    } else {
      EncodeSingle(Escape, c);
      assert Escape(c) == [c] || |Escape(c)| >= 2;
    }
  }

  function OfferSize(wire: bool, o: Offer): nat {
    Size(wire, Print(Escape, OfferValue(o)))
  }

  function SizeOf(wire: bool): Offer -> nat {
    (o: Offer) => OfferSize(wire, o)
  }

  function Flag(on: bool): string {
    if on then "true" else "false"
  }

  /** The object around the items: `k` and `j` are its two keys. */
  function FrameSize(wire: bool, k: string, j: string): nat {
    Size(wire, Lead(Escape, "{", k)) + Size(wire, "[") + Size(wire, "]") + Size(wire, Lead(Escape, ",", j))
    + Size(wire, "}")
  }

  function PageSize(wire: bool, p: AnswerPage): nat {
    FrameSize(wire, ITEMS, TRUNCATED) + Total(SizeOf(wire), p.items) + Size(wire, Flag(p.truncated))
  }

  lemma {:induction false} ItemsText(wire: bool, items: seq<Offer>)
    ensures Size(wire, PrintItems(Escape, OfferValues(items))) == Total(SizeOf(wire), items)
  {
    if items == [] {
      assert Wire([]) == [];
    } else {
      var vs := OfferValues(items);
      assert vs[1..] == OfferValues(items[1..]);
      ItemsText(wire, items[1..]);
      if |items| > 1 {
        assert |vs| > 1 by { assert OfferValues(items[1..]) != []; }
        Size3(wire, Print(Escape, vs[0]), ",", PrintItems(Escape, vs[1..]));
        CommaSize(wire);
      } else {
        assert OfferValues(items[1..]) == [];
      }
    }
  }

  predicate Plain(c: char) {
    Escape(c) == [c] && !Markup(c) && c as int < 0x80
  }

  /** ASCII text that neither encoder touches has its own length. */
  lemma PlainSize(wire: bool, s: string)
    requires forall c <- s :: Plain(c)
    ensures Size(wire, s) == |s|
  {
    forall c <- s ensures Escape(c) == [c] && !Markup(c) { assert Plain(c); }
    forall i | 0 <= i < |s| ensures s[i] as int < 0x80 { assert Plain(s[i]); }
    HardenPlain(s);
    EscapePlain(s);
    AsciiBytes(s);
  }

  lemma CommaSize(wire: bool)
    ensures Size(wire, ",") == 1
  {
    PlainSize(wire, ",");
  }

  lemma {:induction false} EscapePlain(s: string)
    requires forall c <- s :: Escape(c) == [c]
    ensures Encode(Escape, s) == s
  {
    if s != [] {
      assert s[0] in s;
      EscapePlain(s[1..]);
      assert [s[0]] + s[1..] == s;
    }
  }

  lemma {:induction false} AsciiBytes(s: string)
    requires forall i :: 0 <= i < |s| ==> s[i] as int < 0x80
    ensures Bytes(s) == |s|
  {
    if s != [] { AsciiBytes(s[1..]); }
  }

  lemma Size5(wire: bool, a: string, b: string, c: string, d: string, e: string)
    ensures Size(wire, a + b + c + d + e)
         == Size(wire, a) + Size(wire, b) + Size(wire, c) + Size(wire, d) + Size(wire, e)
  {
    Size3(wire, a + b + c, d, e);
    Size3(wire, a, b, c);
  }

  lemma PageObjectSize(wire: bool, p: AnswerPage, k: string, j: string)
    ensures Size(wire, Print(Escape, Obj([Field(k, Arr(OfferValues(p.items))), Field(j, Bool(p.truncated))])))
         == FrameSize(wire, k, j) + Total(SizeOf(wire), p.items) + Size(wire, Flag(p.truncated))
  {
    var list, flag := Arr(OfferValues(p.items)), Bool(p.truncated);
    PrintTwo(Escape, k, list, j, flag);
    Size5(wire, Lead(Escape, "{", k), Print(Escape, list), Lead(Escape, ",", j), Print(Escape, flag), "}");
    Size3(wire, "[", PrintItems(Escape, OfferValues(p.items)), "]");
    ItemsText(wire, p.items);
  }

  lemma PageTextSize(wire: bool, p: AnswerPage)
    ensures Size(wire, PageText(p)) == PageSize(wire, p)
  {
    PageObjectSize(wire, p, ITEMS, TRUNCATED);
  }

  /** The envelope before and after the escaped context. */
  function Before(): string {
    Lead(Escape, "{", OUTPUT) + Lead(Escape, "{", CONTEXT) + "\""
  }

  function After(event: string): string {
    "\"" + Lead(Escape, ",", EVENT) + Quoted(Escape, event) + "}" + "}" + "\n"
  }

  lemma EnvelopeShape(context: string, event: string)
    ensures Print(Escape, Envelope(context, event)) + "\n" == Before() + Encode(Escape, context) + After(event)
  {
    PrintTwo(Escape, CONTEXT, Str(context), EVENT, Str(event));
    PrintOne(Escape, OUTPUT,
             Obj([Field(CONTEXT, Str(context)), Field(EVENT, Str(event))]));
    Nest(Lead(Escape, "{", OUTPUT), Lead(Escape, "{", CONTEXT), Encode(Escape, context),
         Lead(Escape, ",", EVENT), Quoted(Escape, event));
  }

  lemma Nest(a: string, b: string, c: string, d: string, e: string)
    ensures a + (b + ("\"" + c + "\"") + d + e + "}") + "}" + "\n"
         == (a + b + "\"") + c + ("\"" + d + e + "}" + "}" + "\n")
  {
  }

  /** Everything in the reply that does not depend on the page. */
  function Overhead(h: Hook): nat {
    EnvelopeSize(Head(h) + OPEN_TAG, CLOSE_TAG, h.event)
  }

  function EnvelopeSize(head: string, tail: string, event: string): nat {
    Bytes(Encode(Escape, head)) + Bytes(Encode(Escape, tail)) + Bytes(Before()) + Bytes(After(event))
  }

  lemma EnvelopeBytes(head: string, data: string, tail: string, event: string)
    ensures Bytes(Print(Escape, Envelope(head + data + tail, event)) + "\n")
         == EnvelopeSize(head, tail, event) + Bytes(Encode(Escape, data))
  {
    EnvelopeShape(head + data + tail, event);
    Bytes3(Before(), Encode(Escape, head + data + tail), After(event));
    EscapedSize(head, data, tail);
  }

  lemma ReplyAroundData(p: AnswerPage, h: Hook)
    requires p.items != []
    ensures Bytes(AnswerOutput(p, h).value) == Overhead(h) + Bytes(Encode(Escape, Data(p)))
  {
    EnvelopeBytes(Head(h) + OPEN_TAG, Data(p), CLOSE_TAG, h.event);
  }

  lemma DataSize(p: AnswerPage)
    ensures Bytes(Encode(Escape, Data(p))) == PageSize(true, p)
  {
    PageTextSize(true, p);
  }

  /** The whole size law: a reply is a fixed overhead plus the page's own size on the wire. */
  lemma ReplySize(p: AnswerPage, h: Hook)
    requires p.items != []
    ensures Bytes(AnswerOutput(p, h).value) == Overhead(h) + PageSize(true, p)
  {
    ReplyAroundData(p, h);
    DataSize(p);
  }

  lemma EscapedSize(a: string, b: string, c: string)
    ensures Bytes(Encode(Escape, a + b + c))
         == Bytes(Encode(Escape, a)) + Bytes(Encode(Escape, b)) + Bytes(Encode(Escape, c))
  {
    EncodeAppend(Escape, a + b, c);
    EncodeAppend(Escape, a, b);
    Bytes3(Encode(Escape, a), Encode(Escape, b), Encode(Escape, c));
  }

  lemma Bytes3(a: string, b: string, c: string)
    ensures Bytes(a + b + c) == Bytes(a) + Bytes(b) + Bytes(c)
  {
    BytesAppend(a + b, c);
    BytesAppend(a, b);
  }

  // ---- The budget, in terms of the page alone ----

  /** The part of a page's size that packing can change. */
  function WireLoad(p: AnswerPage): nat {
    Load(SizeOf(true), p)
  }

  /** What the hook's own text leaves of the budget. */
  function Room(h: Hook): int {
    MAX_OFFER_BYTES - Overhead(h) - FrameSize(true, ITEMS, TRUNCATED)
  }

  predicate Accepts(p: AnswerPage, h: Hook) {
    AnswerOutput(p, h).Some? && Bytes(AnswerOutput(p, h).value) <= MAX_OFFER_BYTES
  }

  /** The budget: a page is acceptable exactly if it holds something and its reply is at most 8192 bytes long. */
  lemma AcceptsMeans(p: AnswerPage, h: Hook)
    ensures Accepts(p, h) <==> p.items != [] && Bytes(Print(Escape, Envelope(Context(p, h), h.event)) + "\n") <= 8192
  {
  }

  lemma FlagSize(wire: bool, on: bool)
    ensures Size(wire, Flag(on)) == if on then 4 else 5
  {
    PlainSize(wire, Flag(on));
  }

  /** Whether a rendered page is within the budget depends only on its load. */
  lemma AcceptsIff(p: AnswerPage, h: Hook)
    ensures Accepts(p, h) <==> p.items != [] && WireLoad(p) <= Room(h)
  {
    if p.items != [] {
      ReplySize(p, h);
      FlagSize(true, p.truncated);
    }
  }

  method FitAnswers(page: AnswerPage, h: Hook) returns (output: AnswerPage)
    ensures output == Fit(SizeOf(true), page, Room(h))
  {
    var accepts := (p: AnswerPage) => Accepts(p, h);
    forall p: AnswerPage ensures accepts(p) <==> p.items != [] && Load(SizeOf(true), p) <= Room(h) {
      AcceptsIff(p, h);
    }
    output := PackLoop(page, accepts, SizeOf(true), Room(h));
  }
}
