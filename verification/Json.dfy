/**
 Compact JSON text as `serde_json` writes it: string escapes, the byte length of a text, a printer
 and an independent reader. The printer takes the character encoder as an argument, because the hook
 reply writes the same value through two encoders (plain, and with `&`, `<` and `>` replaced).
 */
module Json {
  import opened Basics

  // ---- Characters and bytes ----

  /** Bytes of one character in UTF-8. */
  function Width(c: char): (n: nat)
    ensures 1 <= n <= 4
  {
    var code := c as int;
    if code < 0x80 then 1 else if code < 0x800 then 2 else if code < 0x10000 then 3 else 4
  }

  function Bytes(s: string): nat {
    if s == [] then 0 else Width(s[0]) + Bytes(s[1..])
  }

  /** Section 3 of RFC 3629: one byte up to U+007F, two up to U+07FF, three up to U+FFFF, four beyond. */
  lemma WidthExactly(c: char)
    ensures Width(c) <= 1 <==> c as int <= 0x7F
    ensures Width(c) <= 2 <==> c as int <= 0x7FF
    ensures Width(c) <= 3 <==> c as int <= 0xFFFF
  {
  }

  lemma {:induction false} BytesAppend(a: string, b: string)
    ensures Bytes(a + b) == Bytes(a) + Bytes(b)
    decreases |a|
  {
    if a == [] {
      assert a + b == b;
    } else {
      assert (a + b)[1..] == a[1..] + b;
      BytesAppend(a[1..], b);
    }
  }

  /** `f` applied to every character, results joined. */
  function Encode(f: char -> string, s: string): string {
    if s == [] then [] else f(s[0]) + Encode(f, s[1..])
  }

  lemma {:induction false} EncodeAppend(f: char -> string, a: string, b: string)
    ensures Encode(f, a + b) == Encode(f, a) + Encode(f, b)
    decreases |a|
  {
    if a == [] {
      assert a + b == b;
    } else {
      assert (a + b)[1..] == a[1..] + b;
      EncodeAppend(f, a[1..], b);
      assert f(a[0]) + (Encode(f, a[1..]) + Encode(f, b)) == (f(a[0]) + Encode(f, a[1..])) + Encode(f, b);
    }
  }

  lemma EncodeSingle(f: char -> string, c: char)
    ensures Encode(f, [c]) == f(c)
  {
    assert [c][1..] == [] && f(c) + [] == f(c);
  }

  // ---- The two character encoders ----

  function HexDigit(n: nat): char
    requires n < 16
  {
    "0123456789abcdef"[n]
  }

  /** The escapes of section 7 of RFC 8259, as `serde_json` chooses among them. */
  function Escape(c: char): (s: string)
    ensures s != [] && s[0] != '"'
  {
    var code := c as int;
    if c == '"' then "\\\""
    else if c == '\\' then "\\\\"
    else if code == 8 then "\\b"
    else if code == 9 then "\\t"
    else if code == 10 then "\\n"
    else if code == 12 then "\\f"
    else if code == 13 then "\\r"
    else if code < 0x20 then ['\\', 'u', '0', '0', HexDigit(code / 16), HexDigit(code % 16)]
    else [c]
  }

  /** The replacement of `&`, `<` and `>` that the answer block applies to finished JSON text. */
  function Harden(c: char): string {
    if c == '&' then "\\u0026" else if c == '<' then "\\u003c" else if c == '>' then "\\u003e" else [c]
  }

  /** Escaping followed by hardening, character by character. */
  function HardEscape(c: char): string {
    if c == '&' || c == '<' || c == '>' then Harden(c) else Escape(c)
  }

  lemma HardenedEscape(c: char)
    ensures Encode(Harden, Escape(c)) == HardEscape(c)
  {
    var e := Escape(c);
    if |e| == 1 {
      assert e == [c];
      assert Encode(Harden, e) == Harden(c) + Encode(Harden, []);
    } else {
      HardenPlain(e);
    }
  }

  predicate Markup(c: char) {
    c == '&' || c == '<' || c == '>'
  }

  lemma {:induction false} HardenPlain(s: string)
    requires forall c <- s :: !Markup(c)
    ensures Encode(Harden, s) == s
  {
    if s != [] {
      assert s[0] in s;
      HardenPlain(s[1..]);
      assert [s[0]] + s[1..] == s;
    }
  }

  lemma {:induction false} HardenEscape(s: string)
    ensures Encode(Harden, Encode(Escape, s)) == Encode(HardEscape, s)
  {
    if s != [] {
      EncodeAppend(Harden, Escape(s[0]), Encode(Escape, s[1..]));
      HardenedEscape(s[0]);
      HardenEscape(s[1..]);
    }
  }

  // ---- Values and their compact text ----

  datatype Field = Field(key: string, value: Value)

  /** Numbers keep their lexeme: no arithmetic is done on them here. */
  datatype Value =
    | Null
    | Bool(on: bool)
    | Num(lexeme: string)
    | Str(text: string)
    | Arr(items: seq<Value>)
    | Obj(fields: seq<Field>)

  /** The value under a name: that of the first field with it. */
  function Find(fields: seq<Field>, key: string): Option<Value> {
    if fields == [] then None
    else if fields[0].key == key then Some(fields[0].value)
    else Find(fields[1..], key)
  }

  /** Three fields with three names are each found under its own. */
  lemma FindThree(x: Field, y: Field, z: Field)
    requires x.key != y.key && x.key != z.key && y.key != z.key
    ensures Find([x, y, z], x.key) == Some(x.value) && Find([x, y, z], y.key) == Some(y.value)
    ensures Find([x, y, z], z.key) == Some(z.value)
  {
    assert [x, y, z][1..] == [y, z] && [y, z][1..] == [z];
    assert Find([z], z.key) == Some(z.value);
    assert Find([y, z], z.key) == Find([z], z.key);
  }

  predicate NumChar(c: char) {
    '0' <= c <= '9' || c == '-' || c == '+' || c == '.' || c == 'e' || c == 'E'
  }

  predicate WellFormed(v: Value) {
    match v
    case Num(l) => l != [] && (l[0] == '-' || '0' <= l[0] <= '9') && forall c <- l :: NumChar(c)
    case Arr(items) => forall i :: 0 <= i < |items| ==> WellFormed(items[i])
    case Obj(fields) => forall i :: 0 <= i < |fields| ==> WellFormed(fields[i].value)
    case _ => true
  }

  function Quoted(f: char -> string, s: string): string {
    "\"" + Encode(f, s) + "\""
  }

  function Print(f: char -> string, v: Value): string
    decreases v, 1
  {
    match v
    case Null => "null"
    case Bool(on) => if on then "true" else "false"
    case Num(l) => l
    case Str(s) => Quoted(f, s)
    case Arr(items) => "[" + PrintItems(f, items) + "]"
    case Obj(fields) => "{" + PrintFields(f, fields) + "}"
  }

  function PrintItems(f: char -> string, items: seq<Value>): string
    decreases items, 0
  {
    if items == [] then []
    else if |items| == 1 then Print(f, items[0])
    else Print(f, items[0]) + "," + PrintItems(f, items[1..])
  }

  function PrintField(f: char -> string, field: Field): string
    decreases field, 2
  {
    Quoted(f, field.key) + ":" + Print(f, field.value)
  }

  function PrintFields(f: char -> string, fields: seq<Field>): string
    decreases fields, 0
  {
    if fields == [] then []
    else if |fields| == 1 then PrintField(f, fields[0])
    else PrintField(f, fields[0]) + "," + PrintFields(f, fields[1..])
  }

  /** A separator, a quoted key and a colon. */
  function Lead(f: char -> string, sep: string, key: string): string {
    sep + Quoted(f, key) + ":"
  }

  lemma PrintOne(f: char -> string, k: string, v: Value)
    ensures Print(f, Obj([Field(k, v)])) == Lead(f, "{", k) + Print(f, v) + "}"
  {
    var field := Field(k, v);
    assert PrintFields(f, [field]) == PrintField(f, field);
    assert "{" + (Quoted(f, k) + ":" + Print(f, v)) + "}" == ("{" + Quoted(f, k) + ":") + Print(f, v) + "}";
  }

  lemma PrintTwo(f: char -> string, k: string, v: Value, j: string, w: Value)
    ensures Print(f, Obj([Field(k, v), Field(j, w)]))
         == Lead(f, "{", k) + Print(f, v) + Lead(f, ",", j) + Print(f, w) + "}"
  {
    var first, second := Field(k, v), Field(j, w);
    var fields := [first, second];
    assert fields[1..] == [second];
    assert PrintFields(f, fields) == PrintField(f, first) + "," + PrintField(f, second);
    Regroup(Quoted(f, k), Print(f, v), Quoted(f, j), Print(f, w));
  }

  lemma Regroup(a: string, b: string, c: string, d: string)
    ensures "{" + ((a + ":" + b) + "," + (c + ":" + d)) + "}" == ("{" + a + ":") + b + ("," + c + ":") + d + "}"
  {
  }

  // ---- Hardening finished text is the same as printing with the hardened encoder ----

  lemma {:induction false} HardenQuoted(s: string)
    ensures Encode(Harden, Quoted(Escape, s)) == Quoted(HardEscape, s)
  {
    EncodeAppend(Harden, "\"" + Encode(Escape, s), "\"");
    EncodeAppend(Harden, "\"", Encode(Escape, s));
    HardenEscape(s);
    HardenPlain("\"");
  }

  lemma HardenParts(a: string, b: string, c: string)
    ensures Encode(Harden, a + b + c) == Encode(Harden, a) + Encode(Harden, b) + Encode(Harden, c)
  {
    EncodeAppend(Harden, a + b, c);
    EncodeAppend(Harden, a, b);
  }

  lemma {:induction false} HardenPrint(v: Value)
    requires WellFormed(v)
    ensures Encode(Harden, Print(Escape, v)) == Print(HardEscape, v)
    decreases v, 1
  {
    match v
    case Null => HardenPlain("null");
    case Bool(on) => HardenPlain("true"); HardenPlain("false");
    case Num(l) => HardenPlain(l);
    case Str(s) => HardenQuoted(s);
    case Arr(items) =>
      HardenParts("[", PrintItems(Escape, items), "]");
      HardenPlain("["); HardenPlain("]");
      HardenItems(items);
    case Obj(fields) =>
      HardenParts("{", PrintFields(Escape, fields), "}");
      HardenPlain("{"); HardenPlain("}");
      HardenFields(fields);
  }

  lemma {:induction false} HardenItems(items: seq<Value>)
    requires forall i :: 0 <= i < |items| ==> WellFormed(items[i])
    ensures Encode(Harden, PrintItems(Escape, items)) == PrintItems(HardEscape, items)
    decreases items, 0
  {
    if items != [] {
      HardenPrint(items[0]);
      HardenItems(items[1..]);
      HardenParts(Print(Escape, items[0]), ",", PrintItems(Escape, items[1..]));
      HardenPlain(",");
    }
  }

  lemma {:induction false} HardenFields(fields: seq<Field>)
    requires forall i :: 0 <= i < |fields| ==> WellFormed(fields[i].value)
    ensures Encode(Harden, PrintFields(Escape, fields)) == PrintFields(HardEscape, fields)
    decreases fields, 0
  {
    if fields != [] {
      var field := fields[0];
      HardenPrint(field.value);
      HardenQuoted(field.key);
      HardenParts(Quoted(Escape, field.key), ":", Print(Escape, field.value));
      HardenPlain(":");
      HardenFields(fields[1..]);
      HardenParts(PrintField(Escape, field), ",", PrintFields(Escape, fields[1..]));
      HardenPlain(",");
    }
  }

  lemma HardEscapeCharClean(c: char)
    ensures forall d <- HardEscape(c) :: !Markup(d)
  {
    var code := c as int;
    if code < 0x20 && |Escape(c)| == 6 {
      assert !Markup(HexDigit(code / 16)) && !Markup(HexDigit(code % 16));
    }
  }

  lemma {:induction false} HardEscapeClean(s: string)
    ensures forall c <- Encode(HardEscape, s) :: !Markup(c)
  {
    if s != [] {
      HardEscapeCharClean(s[0]);
      HardEscapeClean(s[1..]);
    }
  }

  /** Hardened text holds no markup character, whatever the strings inside it are. */
  lemma {:induction false} PrintClean(v: Value)
    requires WellFormed(v)
    ensures forall c <- Print(HardEscape, v) :: !Markup(c)
    decreases v, 1
  {
    match v
    case Null =>
    case Bool(on) =>
    case Num(l) =>
    case Str(s) => HardEscapeClean(s);
    case Arr(items) => ItemsClean(items);
    case Obj(fields) => FieldsClean(fields);
  }

  lemma {:induction false} ItemsClean(items: seq<Value>)
    requires forall i :: 0 <= i < |items| ==> WellFormed(items[i])
    ensures forall c <- PrintItems(HardEscape, items) :: !Markup(c)
    decreases items, 0
  {
    if items != [] {
      PrintClean(items[0]);
      ItemsClean(items[1..]);
    }
  }

  lemma {:induction false} FieldsClean(fields: seq<Field>)
    requires forall i :: 0 <= i < |fields| ==> WellFormed(fields[i].value)
    ensures forall c <- PrintFields(HardEscape, fields) :: !Markup(c)
    decreases fields, 0
  {
    if fields != [] {
      HardEscapeClean(fields[0].key);
      PrintClean(fields[0].value);
      FieldsClean(fields[1..]);
    }
  }

  // ---- An independent reader ----

  function HexValue(c: char): Option<nat> {
    if '0' <= c <= '9' then Some(c as int - '0' as int)
    else if 'a' <= c <= 'f' then Some(c as int - 'a' as int + 10)
    else if 'A' <= c <= 'F' then Some(c as int - 'A' as int + 10)
    else None
  }

  /** One string character and the text after it. `None` at a quote, a raw control character, or a
      bad escape; surrogate escapes are not read, since the printer never writes one. */
  function ReadChar(s: string): (r: Option<(char, string)>)
    ensures r.Some? ==> |r.value.1| < |s|
  {
    if s == [] || s[0] == '"' || s[0] as int < 0x20 then None
    else if s[0] != '\\' then Some((s[0], s[1..]))
    else if |s| < 2 then None
    else match s[1]
      case '"' => Some(('"', s[2..]))
      case '\\' => Some(('\\', s[2..]))
      case '/' => Some(('/', s[2..]))
      case 'b' => Some((8 as char, s[2..]))
      case 't' => Some((9 as char, s[2..]))
      case 'n' => Some((10 as char, s[2..]))
      case 'f' => Some((12 as char, s[2..]))
      case 'r' => Some((13 as char, s[2..]))
      case 'u' =>
        if |s| < 6 then None
        else
          var (a, b, c, d) := (HexValue(s[2]), HexValue(s[3]), HexValue(s[4]), HexValue(s[5]));
          if a.None? || b.None? || c.None? || d.None? then None
          else
            var code := ((a.value * 16 + b.value) * 16 + c.value) * 16 + d.value;
            if 0xD800 <= code < 0xE000 || code >= 0x10000 then None else Some((code as char, s[6..]))
      case _ => None
  }

  /** The rest of a string literal after its opening quote, and the text after its closing quote. */
  function ReadString(s: string): (r: Option<(string, string)>)
    ensures r.Some? ==> |r.value.1| < |s|
    decreases |s|
  {
    if s != [] && s[0] == '"' then Some(([], s[1..]))
    else match ReadChar(s)
      case None => None
      case Some((c, rest)) =>
        match ReadString(rest)
        case None => None
        case Some((t, after)) => Some(([c] + t, after))
  }

  function NumSpan(s: string): (n: nat)
    ensures n <= |s|
  {
    if s != [] && NumChar(s[0]) then 1 + NumSpan(s[1..]) else 0
  }

  function ReadValue(s: string): (r: Option<(Value, string)>)
    ensures r.Some? ==> |r.value.1| < |s|
    decreases |s|, 1
  {
    if s == [] then None
    else if s[0] == '"' then
      match ReadString(s[1..])
      case None => None
      case Some((t, rest)) => Some((Str(t), rest))
    else if s[0] == '[' then
      if |s| > 1 && s[1] == ']' then Some((Arr([]), s[2..]))
      else match ReadItems(s[1..])
        case None => None
        case Some((items, rest)) => Some((Arr(items), rest))
    else if s[0] == '{' then
      if |s| > 1 && s[1] == '}' then Some((Obj([]), s[2..]))
      else match ReadFields(s[1..])
        case None => None
        case Some((fields, rest)) => Some((Obj(fields), rest))
    else if "null" <= s then Some((Null, s[4..]))
    else if "true" <= s then Some((Bool(true), s[4..]))
    else if "false" <= s then Some((Bool(false), s[5..]))
    else if s[0] == '-' || '0' <= s[0] <= '9' then
      var n := NumSpan(s);
      Some((Num(s[..n]), s[n..]))
    else None
  }

  /** One or more values separated by commas, up to and including the closing bracket. */
  function ReadItems(s: string): (r: Option<(seq<Value>, string)>)
    ensures r.Some? ==> |r.value.1| < |s|
    decreases |s|, 2
  {
    match ReadValue(s)
    case None => None
    case Some((v, rest)) =>
      if rest != [] && rest[0] == ']' then Some(([v], rest[1..]))
      else if rest != [] && rest[0] == ',' then
        match ReadItems(rest[1..])
        case None => None
        case Some((vs, after)) => Some(([v] + vs, after))
      else None
  }

  function ReadField(s: string): (r: Option<(Field, string)>)
    ensures r.Some? ==> |r.value.1| < |s|
    decreases |s|, 0
  {
    if s == [] || s[0] != '"' then None
    else match ReadString(s[1..])
      case None => None
      case Some((key, rest)) =>
        if rest == [] || rest[0] != ':' then None
        else match ReadValue(rest[1..])
          case None => None
          case Some((v, after)) => Some((Field(key, v), after))
  }

  function ReadFields(s: string): (r: Option<(seq<Field>, string)>)
    ensures r.Some? ==> |r.value.1| < |s|
    decreases |s|, 2
  {
    match ReadField(s)
    case None => None
    case Some((f, rest)) =>
      if rest != [] && rest[0] == '}' then Some(([f], rest[1..]))
      else if rest != [] && rest[0] == ',' then
        match ReadFields(rest[1..])
        case None => None
        case Some((fs, after)) => Some(([f] + fs, after))
      else None
  }

  /** A whole text that is exactly one value. */
  function Parse(s: string): Option<Value> {
    match ReadValue(s)
    case Some((v, rest)) => if rest == [] then Some(v) else None
    case None => None
  }

  // ---- Round trip ----

  predicate ReadsBack(f: char -> string, c: char, rest: string) {
    f(c) != [] && f(c)[0] != '"' && ReadChar(f(c) + rest) == Some((c, rest))
  }

  /** The reader recovers each character from what `f` wrote for it, whatever follows. */
  ghost predicate Faithful(f: char -> string) {
    forall c: char, rest: string :: ReadsBack(f, c, rest)
  }

  lemma ReadEscape(c: char, rest: string)
    ensures ReadChar(Escape(c) + rest) == Some((c, rest))
  {
    var e, code := Escape(c), c as int;
    var s := e + rest;
    assert s[|e|..] == rest;
    if code < 0x20 && |e| == 6 {
      assert s[4] == HexDigit(code / 16) && s[5] == HexDigit(code % 16);
      assert HexValue(s[4]) == Some(code / 16) && HexValue(s[5]) == Some(code % 16);
      assert HexValue('0') == Some(0);
    }
  }

  lemma ReadHardened(c: char, rest: string)
    requires Markup(c)
    ensures ReadChar(Harden(c) + rest) == Some((c, rest))
  {
    var e := Harden(c);
    var s := e + rest;
    assert s[6..] == rest;
    assert s[0] == '\\' && s[1] == 'u' && s[2] == '0' && s[3] == '0';
    assert s[4] == e[4] && s[5] == e[5];
  }

  lemma EncodersFaithful()
    ensures Faithful(Escape)
    ensures Faithful(HardEscape)
  {
    forall c: char, rest: string
      ensures ReadsBack(Escape, c, rest) && ReadsBack(HardEscape, c, rest)
    {
      ReadEscape(c, rest);
      if Markup(c) { ReadHardened(c, rest); }
    }
  }

  lemma {:induction false} StringRoundTrip(f: char -> string, s: string, rest: string)
    requires Faithful(f)
    ensures ReadString(Encode(f, s) + "\"" + rest) == Some((s, rest))
  {
    if s == [] {
      assert Encode(f, s) + "\"" + rest == ['"'] + rest;
    } else {
      var tail := Encode(f, s[1..]) + "\"" + rest;
      Group3(f(s[0]), Encode(f, s[1..]), "\"", rest);
      StringRoundTrip(f, s[1..], rest);
      CharRoundTrip(f, s[0], s[1..], tail, rest);
      HeadTail(s);
    }
  }

  /** One encoded character in front of text that is read back. */
  lemma CharRoundTrip(f: char -> string, c: char, s: string, tail: string, rest: string)
    requires Faithful(f) && ReadString(tail) == Some((s, rest))
    ensures ReadString(f(c) + tail) == Some(([c] + s, rest))
  {
    assert ReadsBack(f, c, tail);
    assert (f(c) + tail)[0] == f(c)[0];
  }

  lemma {:induction false} NumSpanExact(l: string, rest: string)
    requires forall c <- l :: NumChar(c)
    requires rest == [] || !NumChar(rest[0])
    ensures NumSpan(l + rest) == |l|
  {
    if l == [] {
      assert l + rest == rest;
    } else {
      assert l[0] in l;
      assert (l + rest)[1..] == l[1..] + rest;
      NumSpanExact(l[1..], rest);
    }
  }

  /** A delimiter or the end of the text: where a value may stop. */
  predicate Stops(rest: string) {
    rest == [] || !NumChar(rest[0])
  }

  lemma GroupField(a: string, k: string, b: string, t: string, rest: string)
    ensures a + k + a + b + t + rest == a + (k + a + (b + (t + rest)))
  {
  }

  lemma Tail(s: string, rest: string)
    requires |s| == 1
    ensures (s + rest)[1..] == rest && (s + rest)[0] == s[0]
  {
  }

  lemma ReadScalar(v: Value, s: string, rest: string)
    requires v.Null? || v.Bool? || v.Num?
    requires WellFormed(v) && Stops(rest)
    requires s == (if v.Null? then "null" else if v.Num? then v.lexeme else if v.on then "true" else "false")
    ensures ReadValue(s + rest) == Some((v, rest))
  {
    var t := s + rest;
    assert t[..|s|] == s && t[|s|..] == rest;
    if v.Num? {
      NumSpanExact(s, rest);
      assert t[0] == s[0];
    } else {
      assert t[0] == s[0] && t[1] == s[1];
    }
  }

  lemma ReadArr(items: seq<Value>, body: string, rest: string)
    requires body != [] && body[0] != ']'
    requires ReadItems(body + "]" + rest) == Some((items, rest))
    ensures ReadValue("[" + body + "]" + rest) == Some((Arr(items), rest))
  {
    Tail("[", body + "]" + rest);
    Group3("[", body, "]", rest);
  }

  lemma ReadObj(fields: seq<Field>, body: string, rest: string)
    requires body != [] && body[0] == '"'
    requires ReadFields(body + "}" + rest) == Some((fields, rest))
    ensures ReadValue("{" + body + "}" + rest) == Some((Obj(fields), rest))
  {
    Tail("{", body + "}" + rest);
    Group3("{", body, "}", rest);
  }

  lemma ReadStr(t: string, k: string, rest: string)
    requires ReadString(k + "\"" + rest) == Some((t, rest))
    ensures ReadValue("\"" + k + "\"" + rest) == Some((Str(t), rest))
  {
    Tail("\"", k + "\"" + rest);
    Group3("\"", k, "\"", rest);
  }

  lemma ReadEmpty(rest: string)
    ensures ReadValue("[" + [] + "]" + rest) == Some((Arr([]), rest))
    ensures ReadValue("{" + [] + "}" + rest) == Some((Obj([]), rest))
  {
    assert ("[" + [] + "]" + rest)[2..] == rest;
    assert ("{" + [] + "}" + rest)[2..] == rest;
  }

  /** Printed lists never start with their own closing bracket, so the reader sees they are not empty. */
  lemma PrintStart(f: char -> string, v: Value)
    requires WellFormed(v)
    ensures Print(f, v) != [] && Print(f, v)[0] != ']'
  {
  }

  lemma {:induction false} ValueRoundTrip(f: char -> string, v: Value, rest: string)
    requires Faithful(f) && WellFormed(v) && Stops(rest)
    ensures ReadValue(Print(f, v) + rest) == Some((v, rest))
    decreases v, 1
  {
    match v
    case Arr(items) =>
      if items == [] {
        ReadEmpty(rest);
      } else {
        ItemsRoundTrip(f, items, rest);
        PrintStart(f, items[0]);
        ReadArr(items, PrintItems(f, items), rest);
      }
    case Obj(fields) =>
      if fields == [] {
        ReadEmpty(rest);
      } else {
        FieldsRoundTrip(f, fields, rest);
        ReadObj(fields, PrintFields(f, fields), rest);
      }
    case Str(t) =>
      StringRoundTrip(f, t, rest);
      ReadStr(t, Encode(f, t), rest);
    case _ => ReadScalar(v, Print(f, v), rest);
  }

  lemma ReadItemsCons(v: Value, s: string, vs: seq<Value>, tail: string, rest: string)
    requires ReadValue(s + ("," + tail)) == Some((v, "," + tail))
    requires ReadItems(tail) == Some((vs, rest))
    ensures ReadItems(s + "," + tail) == Some(([v] + vs, rest))
  {
    Group2(s, ",", tail);
    Tail(",", tail);
  }

  lemma {:induction false} ItemsRoundTrip(f: char -> string, items: seq<Value>, rest: string)
    requires Faithful(f) && items != []
    requires forall i :: 0 <= i < |items| ==> WellFormed(items[i])
    ensures ReadItems(PrintItems(f, items) + "]" + rest) == Some((items, rest))
    decreases items, 0
  {
    var first := Print(f, items[0]);
    if |items| == 1 {
      ValueRoundTrip(f, items[0], "]" + rest);
      Group2(first, "]", rest);
      Tail("]", rest);
      OneElement(items);
    } else {
      var tail := PrintItems(f, items[1..]) + "]" + rest;
      ValueRoundTrip(f, items[0], "," + tail);
      ItemsRoundTrip(f, items[1..], rest);
      ReadItemsCons(items[0], first, items[1..], tail, rest);
      Group5(first, ",", PrintItems(f, items[1..]), "]", rest);
      HeadTail(items);
    }
  }

  lemma ReadFieldParts(key: string, k: string, v: Value, t: string, rest: string)
    requires ReadString(k + "\"" + (":" + (t + rest))) == Some((key, ":" + (t + rest)))
    requires ReadValue(t + rest) == Some((v, rest))
    ensures ReadField("\"" + k + "\"" + ":" + t + rest) == Some((Field(key, v), rest))
  {
    Tail(":", t + rest);
    Tail("\"", k + "\"" + (":" + (t + rest)));
    GroupField("\"", k, ":", t, rest);
  }

  lemma {:induction false} FieldRoundTrip(f: char -> string, field: Field, rest: string)
    requires Faithful(f) && WellFormed(field.value) && Stops(rest)
    ensures ReadField(PrintField(f, field) + rest) == Some((field, rest))
    decreases field, 2
  {
    var t := Print(f, field.value);
    StringRoundTrip(f, field.key, ":" + (t + rest));
    ValueRoundTrip(f, field.value, rest);
    ReadFieldParts(field.key, Encode(f, field.key), field.value, t, rest);
  }

  lemma ReadFieldsOne(field: Field, s: string, rest: string)
    requires ReadField(s + ("}" + rest)) == Some((field, "}" + rest))
    ensures ReadFields(s + "}" + rest) == Some(([field], rest))
  {
    Group2(s, "}", rest);
    Tail("}", rest);
  }

  lemma ReadFieldsCons(field: Field, s: string, fs: seq<Field>, tail: string, rest: string)
    requires ReadField(s + ("," + tail)) == Some((field, "," + tail))
    requires ReadFields(tail) == Some((fs, rest))
    ensures ReadFields(s + "," + tail) == Some(([field] + fs, rest))
  {
    Group2(s, ",", tail);
    Tail(",", tail);
  }

  lemma {:induction false} FieldsRoundTrip(f: char -> string, fields: seq<Field>, rest: string)
    requires Faithful(f) && fields != []
    requires forall i :: 0 <= i < |fields| ==> WellFormed(fields[i].value)
    ensures ReadFields(PrintFields(f, fields) + "}" + rest) == Some((fields, rest))
    decreases fields, 0
  {
    var first := PrintField(f, fields[0]);
    if |fields| == 1 {
      FieldRoundTrip(f, fields[0], "}" + rest);
      ReadFieldsOne(fields[0], first, rest);
      OneElement(fields);
    } else {
      var tail := PrintFields(f, fields[1..]) + "}" + rest;
      FieldRoundTrip(f, fields[0], "," + tail);
      FieldsRoundTrip(f, fields[1..], rest);
      ReadFieldsCons(fields[0], first, fields[1..], tail, rest);
      Group5(first, ",", PrintFields(f, fields[1..]), "}", rest);
      HeadTail(fields);
    }
  }

  /** Reading printed text gives the value back, under either encoder. */
  lemma ParsePrint(v: Value)
    requires WellFormed(v)
    ensures Parse(Print(Escape, v)) == Some(v)
    ensures Parse(Print(HardEscape, v)) == Some(v)
  {
    EncodersFaithful();
    ValueRoundTrip(Escape, v, []);
    ValueRoundTrip(HardEscape, v, []);
    assert Print(Escape, v) + [] == Print(Escape, v);
    assert Print(HardEscape, v) + [] == Print(HardEscape, v);
  }
}
