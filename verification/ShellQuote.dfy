/**
 Quoting for a command line that an unknown login shell will read, and the lexers of three shells as an
 independent statement of what the quoting must survive.
 */
module ShellQuote {
  import opened Basics

  // ---- Three lexers ----

  /** POSIX sh; zsh with RC_QUOTES, where a doubled quote inside single quotes is one quote; fish, where a
      backslash inside single quotes escapes a quote or a backslash. */
  datatype Dialect = Posix | ZshRcQuotes | Fish

  datatype Token = Word(text: string) | And

  datatype Mode = Between | Bare | Single | Double

  /** Characters with no meaning to any of the shells outside quotes. */
  predicate Ordinary(c: char) {
    'a' <= c <= 'z' || 'A' <= c <= 'Z' || '0' <= c <= '9' || c == '/' || c == '-' || c == '_' || c == '.' || c == '='
  }

  predicate DoubleEscaped(d: Dialect, c: char) {
    c == '"' || c == '\\' || c == '$' || (c == '`' && !d.Fish?)
  }

  /** Section 2.2 of the POSIX.1-2017 Shell Command Language and its variants. `cur` is the word so far.
      `None` stands for an unterminated quote, or for text with a further meaning (expansions, globs,
      redirections, other operators) that quoted words must never reach. */
  function Lex(d: Dialect, s: string, mode: Mode, cur: string): Option<seq<Token>>
    decreases |s|, if mode.Between? then 1 else 0
  {
    match mode
    case Between =>
      if s == [] then Some([])
      else if s[0] == ' ' then Lex(d, s[1..], Between, [])
      else if "&&" <= s then Prepend([And], Lex(d, s[2..], Between, []))
      else Lex(d, s, Bare, [])
    case Bare =>
      if s == [] then Some([Word(cur)])
      else if s[0] == ' ' then Prepend([Word(cur)], Lex(d, s[1..], Between, []))
      else if "&&" <= s then Prepend([Word(cur), And], Lex(d, s[2..], Between, []))
      else if s[0] == '\'' then Lex(d, s[1..], Single, cur)
      else if s[0] == '"' then Lex(d, s[1..], Double, cur)
      else if s[0] == '\\' then
        if d.Fish? || |s| < 2 || s[1] == '\n' then None else Lex(d, s[2..], Bare, cur + [s[1]])
      else if Ordinary(s[0]) then Lex(d, s[1..], Bare, cur + [s[0]])
      else None
    case Single =>
      if s == [] then None
      else if s[0] == '\'' then
        if d.ZshRcQuotes? && |s| > 1 && s[1] == '\'' then Lex(d, s[2..], Single, cur + ['\''])
        else Lex(d, s[1..], Bare, cur)
      else if d.Fish? && s[0] == '\\' && |s| > 1 && (s[1] == '\\' || s[1] == '\'') then
        Lex(d, s[2..], Single, cur + [s[1]])
      else Lex(d, s[1..], Single, cur + [s[0]])
    case Double =>
      if s == [] then None
      else if s[0] == '"' then Lex(d, s[1..], Bare, cur)
      else if s[0] == '\\' && |s| > 1 && s[1] == '\n' then Lex(d, s[2..], Double, cur)
      else if s[0] == '\\' && |s| > 1 && DoubleEscaped(d, s[1]) then Lex(d, s[2..], Double, cur + [s[1]])
      else if s[0] == '$' || (s[0] == '`' && !d.Fish?) then None
      else Lex(d, s[1..], Double, cur + [s[0]])
  }

  function Prepend(ts: seq<Token>, r: Option<seq<Token>>): Option<seq<Token>> {
    if r.None? then None else Some(ts + r.value)
  }

  /** All tokens of a line. */
  function Tokens(d: Dialect, line: string): Option<seq<Token>> {
    Lex(d, line, Between, [])
  }

  // ---- Quoting ----

  predicate Special(c: char) {
    c == '\'' || c == '\\'
  }

  /** The double-quoted form of an apostrophe or a backslash. */
  function Literal(c: char): string {
    if c == '\'' then "\"'\"" else "\"\\\\\""
  }

  /** Length of the longest prefix without a special character. */
  function PlainSpan(s: string): (n: nat)
    ensures n <= |s|
    ensures forall i :: 0 <= i < n ==> !Special(s[i])
    ensures n < |s| ==> Special(s[n])
  {
    if s == [] || Special(s[0]) then 0 else 1 + PlainSpan(s[1..])
  }

  /** Maximal plain runs in single quotes, every special character in double quotes. */
  function Pieces(s: string): string
    decreases |s|
  {
    if s == [] then []
    else if Special(s[0]) then Literal(s[0]) + Pieces(s[1..])
    else var n := PlainSpan(s); "'" + s[..n] + "'" + Pieces(s[n..])
  }

  function Quoted(s: string): string {
    if s == [] then "''" else Pieces(s)
  }

  lemma {:induction false} PlainSpanOf(plain: string, rest: string)
    requires forall i :: 0 <= i < |plain| ==> !Special(plain[i])
    ensures PlainSpan(plain + rest) == |plain| + PlainSpan(rest)
  {
    if plain == [] {
      assert plain + rest == rest;
    } else {
      assert (plain + rest)[1..] == plain[1..] + rest;
      PlainSpanOf(plain[1..], rest);
    }
  }

  /** A finished plain run. */
  lemma PiecesOfRun(plain: string, rest: string)
    requires plain != [] && forall i :: 0 <= i < |plain| ==> !Special(plain[i])
    requires rest == [] || Special(rest[0])
    ensures Pieces(plain + rest) == "'" + plain + "'" + Pieces(rest)
  {
    PlainSpanOf(plain, rest);
    var s := plain + rest;
    assert s[..|plain|] == plain && s[|plain|..] == rest && s[0] == plain[0];
  }

  /** What the loop flushes before and after a special character. */
  function Flush(plain: string): string {
    if plain == [] then [] else "'" + plain + "'"
  }

  lemma PiecesAtSpecial(plain: string, c: char, rest: string)
    requires Special(c) && forall i :: 0 <= i < |plain| ==> !Special(plain[i])
    ensures Pieces(plain + ([c] + rest)) == Flush(plain) + (Literal(c) + Pieces(rest))
  {
    var s := [c] + rest;
    assert s[1..] == rest;
    if plain == [] {
      assert plain + s == s;
    } else {
      PiecesOfRun(plain, s);
    }
  }

  lemma PiecesAtEnd(plain: string)
    requires forall i :: 0 <= i < |plain| ==> !Special(plain[i])
    ensures Pieces(plain) == Flush(plain)
  {
    if plain != [] {
      assert plain + [] == plain;
      PiecesOfRun(plain, []);
    }
  }

  /** The loop's two buffers after `n` characters: what is written, and the plain run still open. */
  ghost predicate Buffers(text: string, n: nat, quoted: string, plain: string) {
    && n <= |text|
    && (forall i :: 0 <= i < |plain| ==> !Special(plain[i]))
    && quoted + Pieces(plain + text[n..]) == Pieces(text)
  }

  lemma BuffersStart(text: string)
    ensures Buffers(text, 0, [], [])
  {
    assert [] + text[0..] == text && [] + Pieces(text) == Pieces(text);
  }

  lemma BuffersPlain(text: string, n: nat, quoted: string, plain: string)
    requires Buffers(text, n, quoted, plain) && n < |text| && !Special(text[n])
    ensures Buffers(text, n + 1, quoted, plain + [text[n]])
  {
    assert plain + text[n..] == plain + [text[n]] + text[n + 1..];
  }

  lemma BuffersSpecial(text: string, n: nat, quoted: string, plain: string)
    requires Buffers(text, n, quoted, plain) && n < |text| && Special(text[n])
    ensures Buffers(text, n + 1, quoted + Flush(plain) + Literal(text[n]), [])
  {
    var c, rest := text[n], text[n + 1..];
    assert text[n..] == [c] + rest && [] + rest == rest;
    PiecesAtSpecial(plain, c, rest);
    Group4(quoted, Flush(plain), Literal(c), Pieces(rest));
  }

  lemma BuffersEnd(text: string, quoted: string, plain: string)
    requires Buffers(text, |text|, quoted, plain)
    ensures quoted + Flush(plain) == Pieces(text)
  {
    assert plain + text[|text|..] == plain;
    PiecesAtEnd(plain);
  }

  /** The character loop with its two buffers. */
  method Quote(text: string) returns (quoted: string)
    ensures quoted == Quoted(text)
  {
    if text == [] { return "''"; }
    quoted := [];
    var plain: string := [];
    BuffersStart(text);
    for n := 0 to |text|
      invariant Buffers(text, n, quoted, plain)
    {
      if Special(text[n]) {
        BuffersSpecial(text, n, quoted, plain);
        quoted := quoted + Flush(plain) + Literal(text[n]);
        plain := [];
      } else {
        BuffersPlain(text, n, quoted, plain);
        plain := plain + [text[n]];
      }
    }
    BuffersEnd(text, quoted, plain);
    quoted := quoted + Flush(plain);
  }

  // ---- Quoted text is exactly one word ----

  predicate NoQuote(rest: string) {
    rest == [] || rest[0] != '\''
  }

  lemma {:induction false} LexRun(d: Dialect, plain: string, rest: string, cur: string)
    requires forall i :: 0 <= i < |plain| ==> !Special(plain[i])
    requires NoQuote(rest)
    ensures Lex(d, plain + "'" + rest, Single, cur) == Lex(d, rest, Bare, cur + plain)
    decreases |plain|
  {
    var s := plain + "'" + rest;
    if plain == [] {
      assert s == ['\''] + rest && s[1..] == rest;
      assert cur + plain == cur;
    } else {
      assert s[0] == plain[0] && s[1..] == plain[1..] + "'" + rest;
      LexRun(d, plain[1..], rest, cur + [plain[0]]);
      assert cur + [plain[0]] + plain[1..] == cur + plain;
    }
  }

  lemma LexOpen(d: Dialect, plain: string, rest: string, cur: string)
    ensures Lex(d, "'" + plain + "'" + rest, Bare, cur) == Lex(d, plain + "'" + rest, Single, cur)
  {
    assert ("'" + plain + "'" + rest)[1..] == plain + "'" + rest;
  }

  lemma LexLiteral(d: Dialect, c: char, rest: string, cur: string)
    requires Special(c)
    ensures Lex(d, Literal(c) + rest, Bare, cur) == Lex(d, rest, Bare, cur + [c])
  {
    var s := Literal(c) + rest;
    var inner := s[1..];
    var close := ['"'] + rest;
    assert Lex(d, s, Bare, cur) == Lex(d, inner, Double, cur);
    assert close[1..] == rest;
    assert Lex(d, close, Double, cur + [c]) == Lex(d, rest, Bare, cur + [c]);
    if c == '\'' {
      assert inner[0] == c && inner[1..] == close;
      assert Lex(d, inner, Double, cur) == Lex(d, close, Double, cur + [c]);
    } else {
      assert inner[0] == c && inner[1] == c && inner[2..] == close;
      assert Lex(d, inner, Double, cur) == Lex(d, close, Double, cur + [c]);
    }
  }

  lemma PiecesStart(s: string)
    requires s == [] || Special(s[0])
    ensures NoQuote(Pieces(s)) && (s != [] ==> Pieces(s) != [])
  {
  }

  lemma {:induction false} LexPieces(d: Dialect, s: string, rest: string, cur: string)
    requires NoQuote(rest)
    ensures Lex(d, Pieces(s) + rest, Bare, cur) == Lex(d, rest, Bare, cur + s)
    decreases |s|
  {
    if s == [] {
      assert [] + rest == rest && cur + [] == cur;
    } else if Special(s[0]) {
      Group2(Literal(s[0]), Pieces(s[1..]), rest);
      LexLiteral(d, s[0], Pieces(s[1..]) + rest, cur);
      LexPieces(d, s[1..], rest, cur + [s[0]]);
      assert s[..1] == [s[0]];
      Rejoin(cur, s, 1);
    } else {
      var n := PlainSpan(s);
      var tail := Pieces(s[n..]) + rest;
      Group2("'" + s[..n] + "'", Pieces(s[n..]), rest);
      LexOpen(d, s[..n], tail, cur);
      PiecesStart(s[n..]);
      LexRun(d, s[..n], tail, cur);
      LexPieces(d, s[n..], rest, cur + s[..n]);
      Rejoin(cur, s, n);
    }
  }

  /** Quoted text continues the current word by exactly the original text. */
  lemma LexQuoted(d: Dialect, s: string, rest: string, cur: string)
    requires NoQuote(rest)
    ensures Lex(d, Quoted(s) + rest, Bare, cur) == Lex(d, rest, Bare, cur + s)
  {
    if s == [] {
      assert ("''" + rest)[1..] == [] + "'" + rest;
      LexRun(d, [], rest, cur);
    } else {
      LexPieces(d, s, rest, cur);
    }
  }

  lemma QuotedStart(s: string)
    ensures Quoted(s) != [] && (Quoted(s)[0] == '\'' || Quoted(s)[0] == '"')
  {
  }

  /** Under each shell, quoted text is one word: the original, whatever characters it holds. */
  lemma QuotedIsOneWord(d: Dialect, s: string)
    ensures Tokens(d, Quoted(s)) == Some([Word(s)])
  {
    QuotedStart(s);
    assert Quoted(s) + [] == Quoted(s);
    LexQuoted(d, s, [], []);
    assert [] + s == s;
  }

  lemma QuotedInjective(s: string, t: string)
    requires Quoted(s) == Quoted(t)
    ensures s == t
  {
    QuotedIsOneWord(Posix, s);
    QuotedIsOneWord(Posix, t);
  }

  // ---- Lines made of words and operators ----

  /** A word written as ordinary text, a quoted part, or one after the other; or the operator `&&`. */
  datatype Part = Plain(bare: string) | Joined(bare: string, quoted: string) | Both

  predicate Usable(p: Part) {
    !p.Both? ==> (p.Plain? ==> p.bare != []) && forall i :: 0 <= i < |p.bare| ==> Ordinary(p.bare[i])
  }

  function PartText(p: Part): string {
    match p
    case Plain(b) => b
    case Joined(b, q) => b + Quoted(q)
    case Both => "&&"
  }

  function PartToken(p: Part): Token {
    match p
    case Plain(b) => Word(b)
    case Joined(b, q) => Word(b + q)
    case Both => And
  }

  /** Words with single spaces between them. */
  function Spaced(words: seq<string>): string {
    if words == [] then [] else if |words| == 1 then words[0] else words[0] + " " + Spaced(words[1..])
  }

  function PartTexts(parts: seq<Part>): seq<string> {
    if parts == [] then [] else [PartText(parts[0])] + PartTexts(parts[1..])
  }

  function Line(parts: seq<Part>): string {
    Spaced(PartTexts(parts))
  }

  function LineTokens(parts: seq<Part>): seq<Token> {
    if parts == [] then [] else [PartToken(parts[0])] + LineTokens(parts[1..])
  }

  lemma {:induction false} LexOrdinary(d: Dialect, w: string, rest: string, cur: string)
    requires forall i :: 0 <= i < |w| ==> Ordinary(w[i])
    ensures Lex(d, w + rest, Bare, cur) == Lex(d, rest, Bare, cur + w)
    decreases |w|
  {
    if w == [] {
      assert w + rest == rest && cur + w == cur;
    } else {
      assert (w + rest)[0] == w[0] && (w + rest)[1..] == w[1..] + rest;
      LexOrdinary(d, w[1..], rest, cur + [w[0]]);
      assert cur + [w[0]] + w[1..] == cur + w;
    }
  }

  lemma LexFirst(d: Dialect, s: string)
    requires s != [] && (Ordinary(s[0]) || s[0] == '\'' || s[0] == '"')
    ensures Lex(d, s, Between, []) == Lex(d, s, Bare, [])
  {
  }

  lemma LexPart(d: Dialect, p: Part, rest: string)
    requires Usable(p) && !p.Both? && NoQuote(rest)
    ensures Lex(d, PartText(p) + rest, Between, []) == Lex(d, rest, Bare, PartToken(p).text)
  {
    assert [] + p.bare == p.bare;
    if p.Plain? {
      LexFirst(d, p.bare + rest);
      LexOrdinary(d, p.bare, rest, []);
    } else {
      var after := Quoted(p.quoted) + rest;
      QuotedStart(p.quoted);
      Group2(p.bare, Quoted(p.quoted), rest);
      LexFirst(d, p.bare + after);
      LexOrdinary(d, p.bare, after, []);
      LexQuoted(d, p.quoted, rest, p.bare);
    }
  }

  /** A line of usable parts reads back as exactly its own tokens, in every shell. */
  lemma {:induction false} LineRoundTrip(d: Dialect, parts: seq<Part>)
    requires forall i :: 0 <= i < |parts| ==> Usable(parts[i])
    ensures Tokens(d, Line(parts)) == Some(LineTokens(parts))
    decreases |parts|
  {
    if parts != [] {
      var p := parts[0];
      var rest := if |parts| == 1 then [] else " " + Line(parts[1..]);
      LineRest(parts);
      LineRoundTrip(d, parts[1..]);
      if |parts| > 1 { assert rest[0] == ' ' && rest[1..] == Line(parts[1..]); }
      var more := LineTokens(parts[1..]);
      if p.Both? {
        LexBoth(d, rest, if |parts| == 1 then [] else Line(parts[1..]), more);
      } else {
        LexPart(d, p, rest);
        LexEnd(d, PartToken(p).text, rest, if |parts| == 1 then [] else Line(parts[1..]), more);
      }
    }
  }

  lemma LineRest(parts: seq<Part>)
    requires parts != []
    ensures Line(parts) == PartText(parts[0]) + if |parts| == 1 then [] else " " + Line(parts[1..])
  {
    var texts := PartTexts(parts);
    assert texts[1..] == PartTexts(parts[1..]);
    if |parts| == 1 {
      assert parts[1..] == [] && texts == [PartText(parts[0])];
    } else {
      assert PartTexts(parts[1..]) != [];
      Group2(PartText(parts[0]), " ", Line(parts[1..]));
    }
  }

  lemma LexEnd(d: Dialect, w: string, rest: string, line: string, more: seq<Token>)
    requires rest == " " + line || (rest == [] && line == [])
    requires Lex(d, line, Between, []) == Some(more)
    ensures Lex(d, rest, Bare, w) == Some([Word(w)] + more)
  {
    if rest != [] { assert rest[1..] == line; } else { assert [Word(w)] + [] == [Word(w)]; }
  }

  lemma LexBoth(d: Dialect, rest: string, line: string, more: seq<Token>)
    requires rest == " " + line || (rest == [] && line == [])
    requires Lex(d, line, Between, []) == Some(more)
    ensures Lex(d, "&&" + rest, Between, []) == Some([And] + more)
  {
    assert ("&&" + rest)[2..] == rest;
    if rest != [] { assert rest[1..] == line; }
  }

  // ---- Why neither single quotes nor doubling will do ----

  lemma SingleStep(d: Dialect, c: char, rest: string, cur: string)
    requires c != '\'' && c != '\\'
    ensures Lex(d, [c] + rest, Single, cur) == Lex(d, rest, Single, cur + [c])
  {
    assert ([c] + rest)[1..] == rest;
  }

  /** Opening a quote at the start of a line. */
  lemma OpenQuote(d: Dialect, rest: string)
    ensures Tokens(d, "'" + rest) == Lex(d, rest, Single, "")
  {
    var s := "'" + rest;
    assert s[1..] == rest && s[0] == '\'' && !("&&" <= s) && !Ordinary(s[0]);
    assert Lex(d, s, Between, "") == Lex(d, s, Bare, "");
    assert Lex(d, s, Bare, "") == Lex(d, rest, Single, "");
  }

  /** Inside single quotes fish reads two backslashes as one, and the other shells read them as they stand. */
  lemma FishBackslash(d: Dialect)
    ensures Tokens(d, "'" + "\\\\'") == Some([Word(if d.Fish? then "\\" else "\\\\")])
  {
    OpenQuote(d, "\\\\'");
    var rest := "\\\\'";
    assert rest[2..] == "'" && rest[1..] == "\\'" && "\\'"[1..] == "'" && "'"[1..] == "";
    assert "" + ['\\'] == "\\" && "\\" + ['\\'] == "\\\\";
    assert Lex(d, "'", Single, "\\") == Some([Word("\\")]);
    assert Lex(d, "'", Single, "\\\\") == Some([Word("\\\\")]);
  }

  /** A doubled quote inside single quotes is a quote to zsh with RC_QUOTES, and nothing to the others. */
  lemma ZshDoubledQuote(d: Dialect)
    ensures Tokens(d, "'" + "a''b'") == Some([Word(if d.ZshRcQuotes? then "a'b" else "ab")])
  {
    OpenQuote(d, "a''b'");
    assert "a''b'" == ['a'] + "''b'" && "" + ['a'] == "a";
    SingleStep(d, 'a', "''b'", "");
    assert "''b'"[2..] == "b'" && "''b'"[1..] == "'b'" && "'b'"[1..] == "b'" && "b'" == ['b'] + "'";
    assert "a" + ['\''] == "a'" && "a'" + ['b'] == "a'b" && "a" + ['b'] == "ab" && "'"[1..] == "";
    SingleStep(d, 'b', "'", "a'");
    SingleStep(d, 'b', "'", "a");
    assert Lex(d, "'", Single, "a'b") == Some([Word("a'b")]) && Lex(d, "'", Single, "ab") == Some([Word("ab")]);
    assert !d.ZshRcQuotes? ==> Lex(d, "''b'", Single, "a") == Lex(d, "b'", Single, "a");
  }
}
