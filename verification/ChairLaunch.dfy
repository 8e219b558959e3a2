/**
 The command line that starts a handed-over chair session. It is typed into a login shell of unknown kind,
 which runs a POSIX script, which starts a program with JSON settings, which hold further shell commands.
 */
module ChairLaunch {
  import opened Basics
  import Json
  import opened ShellQuote

  /** A file system path: text, or bytes that are not UTF-8. */
  datatype Path = Utf8(text: string) | Raw

  /** The fixed words of the handover prompt, around the checkpoint path. */
  datatype Prose = Prose(before: string, after: string)

  datatype Launch = Launch(
    cwd: Path, target: Path, state: Path, checkpoint: Path, executable: Path, rotating: Path, prose: Prose)

  datatype Refusal = RotatingTarget | UnsafePath

  predicate Terminal(p: Path) {
    p.Utf8? && ControlFree(p.text)
  }

  function TerminalPath(p: Path): Result<string, Refusal> {
    if Terminal(p) then Success(p.text) else Failure(UnsafePath)
  }

  // ---- Settings handed to the new session ----

  function HookCommand(executable: string, leaf: string): string {
    Spaced([Quoted(executable), "hook", "claude", leaf])
  }

  function HookEntry(command: string, seconds: string): Json.Value {
    Json.Arr([Json.Obj([Json.Field("hooks", Json.Arr([Json.Obj([
      Json.Field("command", Json.Str(command)), Json.Field("timeout", Json.Num(seconds)),
      Json.Field("type", Json.Str("command"))])]))])])
  }

  function Settings(start: string, stop: string, submit: string): Json.Value {
    Json.Obj([Json.Field("hooks", Json.Obj([
      Json.Field("SessionStart", HookEntry(start, "5")), Json.Field("Stop", HookEntry(stop, "5")),
      Json.Field("UserPromptSubmit", HookEntry(submit, "10"))]))])
  }

  function SettingsFor(executable: string): Json.Value {
    Settings(HookCommand(executable, "chair-start"), HookCommand(executable, "chair-stop"),
             HookCommand(executable, "chair-prompt"))
  }

  function SettingsText(executable: string): string {
    Json.Print(Json.Escape, SettingsFor(executable))
  }

  // ---- The line ----

  function Prompt(prose: Prose, checkpoint: string): string {
    prose.before + checkpoint + prose.after
  }

  function ScriptWords(cwd: string, target: string, state: string, settings: string, prompt: string): seq<string> {
    ["cd", Quoted(cwd), "&&", "CLAUDE_CONFIG_DIR=" + Quoted(target), "PROVENANT_STATE_DIR=" + Quoted(state),
     "claude", "--settings", Quoted(settings), Quoted(prompt)]
  }

  function ScriptOf(cwd: string, target: string, state: string, settings: string, prompt: string): string {
    Spaced(ScriptWords(cwd, target, state, settings, prompt))
  }

  function LineOf(script: string): string {
    Spaced(["/bin/sh", "-c", Quoted(script)])
  }

  /** Refusals in the order the paths are looked at. */
  function Script(l: Launch): Result<string, Refusal> {
    if l.target == l.rotating then Failure(RotatingTarget)
    else match (TerminalPath(l.checkpoint), TerminalPath(l.executable), TerminalPath(l.cwd), TerminalPath(l.target),
                TerminalPath(l.state))
      case (Success(checkpoint), Success(executable), Success(cwd), Success(target), Success(state)) =>
        Success(ScriptOf(cwd, target, state, SettingsText(executable), Prompt(l.prose, checkpoint)))
      case _ => Failure(UnsafePath)
  }

  function LaunchLine(l: Launch): Result<string, Refusal> {
    match Script(l)
    case Success(script) => Success(LineOf(script))
    case Failure(e) => Failure(e)
  }

  // ---- Reading it back ----

  lemma {:induction false} PartsAt(parts: seq<Part>)
    ensures |PartTexts(parts)| == |parts| == |LineTokens(parts)|
    ensures forall i :: 0 <= i < |parts| ==> PartTexts(parts)[i] == PartText(parts[i])
    ensures forall i :: 0 <= i < |parts| ==> LineTokens(parts)[i] == PartToken(parts[i])
  {
    if parts != [] { PartsAt(parts[1..]); }
  }

  /** The word a usable part is written as, and the token it stands for. */
  predicate Reads(part: Part, word: string, token: Token) {
    Usable(part) && word == PartText(part) && token == PartToken(part)
  }

  predicate AllRead(parts: seq<Part>, words: seq<string>, tokens: seq<Token>) {
    |parts| == |words| == |tokens| && forall i :: 0 <= i < |parts| ==> Reads(parts[i], words[i], tokens[i])
  }

  predicate ThreeRead(p: seq<Part>, w: seq<string>, t: seq<Token>) {
    && |p| == |w| == |t| == 3
    && Reads(p[0], w[0], t[0]) && Reads(p[1], w[1], t[1]) && Reads(p[2], w[2], t[2])
  }

  /** Words that are the texts of usable parts read back as the parts' tokens. */
  lemma WordsRoundTrip(d: Dialect, parts: seq<Part>, words: seq<string>, tokens: seq<Token>)
    requires AllRead(parts, words, tokens)
    ensures Tokens(d, Spaced(words)) == Some(tokens)
  {
    PartsAt(parts);
    assert PartTexts(parts) == words && LineTokens(parts) == tokens;
    LineRoundTrip(d, parts);
  }

  /** Nine words, three at a time. */
  lemma ReadsInThrees(
    d: Dialect, u: seq<string>, v: seq<string>, w: seq<string>, r: seq<Token>, s: seq<Token>, t: seq<Token>,
    p: seq<Part>, q: seq<Part>, o: seq<Part>)
    requires ThreeRead(p, u, r) && ThreeRead(q, v, s) && ThreeRead(o, w, t)
    ensures Tokens(d, Spaced([u[0], u[1], u[2], v[0], v[1], v[2], w[0], w[1], w[2]]))
         == Some([r[0], r[1], r[2], s[0], s[1], s[2], t[0], t[1], t[2]])
  {
    WordsRoundTrip(d, [p[0], p[1], p[2], q[0], q[1], q[2], o[0], o[1], o[2]],
                   [u[0], u[1], u[2], v[0], v[1], v[2], w[0], w[1], w[2]],
                   [r[0], r[1], r[2], s[0], s[1], s[2], t[0], t[1], t[2]]);
  }

  /** A quoted word on its own. */
  function Alone(s: string): Part {
    Joined([], s)
  }

  lemma AloneText(s: string)
    ensures Reads(Alone(s), Quoted(s), Word(s))
  {
    assert [] + Quoted(s) == Quoted(s) && [] + s == s;
  }

  /** The outer line is three words in every shell, the last one the script. */
  lemma OuterLine(d: Dialect, script: string)
    ensures Tokens(d, LineOf(script)) == Some([Word("/bin/sh"), Word("-c"), Word(script)])
  {
    AloneText(script);
    WordsRoundTrip(d, [Plain("/bin/sh"), Plain("-c"), Alone(script)], ["/bin/sh", "-c", Quoted(script)],
                   [Word("/bin/sh"), Word("-c"), Word(script)]);
  }

  lemma JoinedText(prefix: string, s: string)
    requires OrdinaryWord(prefix)
    ensures Reads(Joined(prefix, s), prefix + Quoted(s), Word(prefix + s))
  {
  }

  lemma PlainText(w: string)
    requires OrdinaryWord(w)
    ensures Reads(Plain(w), w, Word(w))
  {
  }

  predicate OrdinaryWord(w: string) {
    w != [] && forall i :: 0 <= i < |w| ==> Ordinary(w[i])
  }

  lemma ScriptWordsOrdinary()
    ensures OrdinaryWord("cd") && OrdinaryWord("claude") && OrdinaryWord("--settings")
    ensures OrdinaryWord("CLAUDE_CONFIG_DIR=") && OrdinaryWord("PROVENANT_STATE_DIR=")
  {
  }

  function ScriptTokens(cwd: string, target: string, state: string, settings: string, prompt: string): seq<Token> {
    [Word("cd"), Word(cwd), And, Word("CLAUDE_CONFIG_DIR=" + target), Word("PROVENANT_STATE_DIR=" + state),
     Word("claude"), Word("--settings"), Word(settings), Word(prompt)]
  }

  /** The same line for any ordinary words in place of the fixed ones. */
  lemma ScriptShape(
    d: Dialect, w: seq<string>, cwd: string, target: string, state: string, settings: string, prompt: string)
    requires |w| == 5 && forall i :: 0 <= i < 5 ==> OrdinaryWord(w[i])
    ensures Tokens(d, Spaced([w[0], Quoted(cwd), "&&", w[1] + Quoted(target), w[2] + Quoted(state), w[3], w[4],
                              Quoted(settings), Quoted(prompt)]))
         == Some([Word(w[0]), Word(cwd), And, Word(w[1] + target), Word(w[2] + state), Word(w[3]), Word(w[4]),
                  Word(settings), Word(prompt)])
  {
    AloneText(cwd);
    AloneText(settings);
    AloneText(prompt);
    PlainText(w[0]);
    JoinedText(w[1], target);
    JoinedText(w[2], state);
    PlainText(w[3]);
    PlainText(w[4]);
    ReadsInThrees(
      d, [w[0], Quoted(cwd), "&&"], [w[1] + Quoted(target), w[2] + Quoted(state), w[3]],
      [w[4], Quoted(settings), Quoted(prompt)], [Word(w[0]), Word(cwd), And],
      [Word(w[1] + target), Word(w[2] + state), Word(w[3])], [Word(w[4]), Word(settings), Word(prompt)],
      [Plain(w[0]), Alone(cwd), Both], [Joined(w[1], target), Joined(w[2], state), Plain(w[3])],
      [Plain(w[4]), Alone(settings), Alone(prompt)]);
  }

  /** The script reads back as its own words: the paths, settings and prompt are exact. */
  lemma InnerScript(d: Dialect, cwd: string, target: string, state: string, settings: string, prompt: string)
    ensures Tokens(d, ScriptOf(cwd, target, state, settings, prompt))
         == Some(ScriptTokens(cwd, target, state, settings, prompt))
  {
    var w := ["cd", "CLAUDE_CONFIG_DIR=", "PROVENANT_STATE_DIR=", "claude", "--settings"];
    ScriptWordsOrdinary();
    ScriptShape(d, w, cwd, target, state, settings, prompt);
  }

  lemma LeavesOrdinary()
    ensures OrdinaryWord("hook") && OrdinaryWord("claude")
    ensures OrdinaryWord("chair-start") && OrdinaryWord("chair-stop") && OrdinaryWord("chair-prompt")
  {
  }

  /** A hook command reads back, in every shell, as the executable and its three arguments. */
  lemma HookCommandWords(d: Dialect, executable: string, leaf: string)
    requires OrdinaryWord(leaf)
    ensures Tokens(d, HookCommand(executable, leaf))
         == Some([Word(executable), Word("hook"), Word("claude"), Word(leaf)])
  {
    AloneText(executable);
    LeavesOrdinary();
    WordsRoundTrip(d, [Alone(executable), Plain("hook"), Plain("claude"), Plain(leaf)],
                   [Quoted(executable), "hook", "claude", leaf],
                   [Word(executable), Word("hook"), Word("claude"), Word(leaf)]);
  }

  lemma SettingsWellFormed(start: string, stop: string, submit: string)
    ensures Json.WellFormed(Settings(start, stop, submit))
  {
    EntryWellFormed(start, "5");
    EntryWellFormed(stop, "5");
    EntryWellFormed(submit, "10");
    assert Json.WellFormed(Settings(start, stop, submit).fields[0].value);
  }

  lemma EntryWellFormed(command: string, seconds: string)
    requires Json.WellFormed(Json.Num(seconds))
    ensures Json.WellFormed(HookEntry(command, seconds))
  {
    var inner := HookEntry(command, seconds).items[0].fields[0].value;
    assert Json.WellFormed(inner.items[0]);
    assert Json.WellFormed(HookEntry(command, seconds).items[0]);
  }

  /** What a session takes from its settings for an event: the kind of hook, its command and its time limit. */
  datatype HookSetting = HookSetting(kind: string, command: string, seconds: string)

  function HookFor(settings: Json.Value, event: string): Option<HookSetting> {
    match settings
    case Obj(top) =>
      (match Json.Find(top, "hooks")
       case Some(Obj(events)) =>
         (match Json.Find(events, event)
          case Some(entry) => EntryHook(entry)
          case None => None)
       case _ => None)
    case _ => None
  }

  /** The only hook of the only group. */
  function EntryHook(entry: Json.Value): Option<HookSetting> {
    if !entry.Arr? || |entry.items| != 1 || !entry.items[0].Obj? then None
    else match Json.Find(entry.items[0].fields, "hooks")
      case Some(Arr(hooks)) => if |hooks| == 1 && hooks[0].Obj? then ReadHook(hooks[0].fields) else None
      case _ => None
  }

  function ReadHook(fields: seq<Json.Field>): Option<HookSetting> {
    match (Json.Find(fields, "type"), Json.Find(fields, "command"), Json.Find(fields, "timeout"))
    case (Some(Str(kind)), Some(Str(command)), Some(Num(seconds))) => Some(HookSetting(kind, command, seconds))
    case _ => None
  }

  lemma EntryReads(command: string, seconds: string)
    ensures EntryHook(HookEntry(command, seconds)) == Some(HookSetting("command", command, seconds))
  {
    assert |"type"| == 4 && |"command"| == 7 && |"timeout"| == 7 && "command"[0] != "timeout"[0];
    var fields := HookEntry(command, seconds).items[0].fields[0].value.items[0].fields;
    Json.FindThree(Json.Field("command", Json.Str(command)), Json.Field("timeout", Json.Num(seconds)),
                   Json.Field("type", Json.Str("command")));
    assert ReadHook(fields) == Some(HookSetting("command", command, seconds));
  }

  lemma SettingsCommands(start: string, stop: string, submit: string)
    ensures HookFor(Settings(start, stop, submit), "SessionStart") == Some(HookSetting("command", start, "5"))
    ensures HookFor(Settings(start, stop, submit), "Stop") == Some(HookSetting("command", stop, "5"))
    ensures HookFor(Settings(start, stop, submit), "UserPromptSubmit") == Some(HookSetting("command", submit, "10"))
  {
    EntryReads(start, "5");
    EntryReads(stop, "5");
    EntryReads(submit, "10");
    var events := Settings(start, stop, submit).fields[0].value.fields;
    EventsFound(events, HookEntry(start, "5"), HookEntry(stop, "5"), HookEntry(submit, "10"));
  }

  lemma EventsFound(events: seq<Json.Field>, a: Json.Value, b: Json.Value, c: Json.Value)
    requires events == [Json.Field("SessionStart", a), Json.Field("Stop", b), Json.Field("UserPromptSubmit", c)]
    ensures Json.Find(events, "SessionStart") == Some(a) && Json.Find(events, "Stop") == Some(b)
    ensures Json.Find(events, "UserPromptSubmit") == Some(c)
  {
    assert |"SessionStart"| == 12 && |"Stop"| == 4 && |"UserPromptSubmit"| == 16;
    Json.FindThree(events[0], events[1], events[2]);
  }

  // ---- The whole launch ----

  predicate Launchable(l: Launch) {
    && l.target != l.rotating
    && Terminal(l.checkpoint) && Terminal(l.executable) && Terminal(l.cwd) && Terminal(l.target) && Terminal(l.state)
  }

  /** No control character: none below 0x20, and none from 0x7f to 0x9f. */
  ghost predicate Typable(p: Path) {
    p.Utf8? && forall i :: 0 <= i < |p.text| ==>
      var code := p.text[i] as int; 0x20 <= code < 0x7f || 0xa0 <= code
  }

  /** What can be launched: the target is not the account that rotates, and all five paths can be typed. */
  lemma LaunchableExactly(l: Launch)
    ensures Launchable(l) <==>
      && l.target != l.rotating && Typable(l.checkpoint) && Typable(l.executable) && Typable(l.cwd)
      && Typable(l.target) && Typable(l.state)
  {
    TypableTerminal(l.checkpoint);
    TypableTerminal(l.executable);
    TypableTerminal(l.cwd);
    TypableTerminal(l.target);
    TypableTerminal(l.state);
  }

  lemma TypableTerminal(p: Path)
    ensures Terminal(p) <==> Typable(p)
  {
  }

  /** A launch is refused exactly for a rotating target or a path that cannot be typed. Otherwise every login
      shell reads the line as `/bin/sh -c SCRIPT`, and sh reads SCRIPT as the exact directories, settings text
      and prompt. */
  lemma LaunchSurvivesTwoShells(l: Launch, d: Dialect)
    ensures LaunchLine(l).Success? <==> Launchable(l)
    ensures LaunchLine(l) == Failure(RotatingTarget) <==> l.target == l.rotating
    ensures Launchable(l) ==>
      var (line, script) := (LaunchLine(l).value, Script(l).value);
      && Tokens(d, line) == Some([Word("/bin/sh"), Word("-c"), Word(script)])
      && Tokens(Posix, script)
         == Some([Word("cd"), Word(l.cwd.text), And, Word("CLAUDE_CONFIG_DIR=" + l.target.text),
                  Word("PROVENANT_STATE_DIR=" + l.state.text), Word("claude"), Word("--settings"),
                  Word(SettingsText(l.executable.text)),
                  Word(l.prose.before + l.checkpoint.text + l.prose.after)])
  {
    if Launchable(l) {
      OuterLine(d, Script(l).value);
      InnerScript(Posix, l.cwd.text, l.target.text, l.state.text, SettingsText(l.executable.text),
                  Prompt(l.prose, l.checkpoint.text));
    }
  }

  lemma SettingsRoundTrip(start: string, stop: string, submit: string)
    ensures Json.Parse(Json.Print(Json.Escape, Settings(start, stop, submit))) == Some(Settings(start, stop, submit))
  {
    SettingsWellFormed(start, stop, submit);
    Json.ParsePrint(Settings(start, stop, submit));
  }

  /** The third level: the settings text reads back as JSON whose commands are the three hook commands.
      `HookCommandWords` then reads each of them back as the executable with its own arguments. */
  lemma SettingsSurvive(executable: string)
    ensures Json.Parse(SettingsText(executable)) == Some(SettingsFor(executable))
    ensures HookFor(SettingsFor(executable), "SessionStart")
         == Some(HookSetting("command", HookCommand(executable, "chair-start"), "5"))
    ensures HookFor(SettingsFor(executable), "Stop")
         == Some(HookSetting("command", HookCommand(executable, "chair-stop"), "5"))
    ensures HookFor(SettingsFor(executable), "UserPromptSubmit")
         == Some(HookSetting("command", HookCommand(executable, "chair-prompt"), "10"))
  {
    var (a, b, c) := (HookCommand(executable, "chair-start"), HookCommand(executable, "chair-stop"),
                      HookCommand(executable, "chair-prompt"));
    SettingsRoundTrip(a, b, c);
    SettingsCommands(a, b, c);
  }

  // ---- The line can be typed: it holds no control character ----

  lemma {:induction false} PiecesControlFree(s: string)
    requires ControlFree(s)
    ensures ControlFree(Pieces(s))
    decreases |s|
  {
    if s == [] {
    } else if Special(s[0]) {
      PiecesControlFree(s[1..]);
    } else {
      PiecesControlFree(s[PlainSpan(s)..]);
    }
  }

  lemma QuotedControlFree(s: string)
    requires ControlFree(s)
    ensures ControlFree(Quoted(s))
  {
    PiecesControlFree(s);
  }

  lemma {:induction false} SpacedControlFree(words: seq<string>)
    requires forall i :: 0 <= i < |words| ==> ControlFree(words[i])
    ensures ControlFree(Spaced(words))
  {
    if |words| > 1 { SpacedControlFree(words[1..]); }
  }

  /** JSON text holds no control character if its strings hold none: those below 0x20 are escaped anyway. */
  predicate Calm(v: Json.Value) {
    match v
    case Str(s) => ControlFree(s)
    case Num(l) => ControlFree(l)
    case Arr(items) => forall i :: 0 <= i < |items| ==> Calm(items[i])
    case Obj(fields) => forall i :: 0 <= i < |fields| ==> ControlFree(fields[i].key) && Calm(fields[i].value)
    case _ => true
  }

  lemma {:induction false} EscapedControlFree(s: string)
    requires ControlFree(s)
    ensures ControlFree(Json.Encode(Json.Escape, s))
  {
    if s != [] { EscapedControlFree(s[1..]); }
  }

  lemma {:induction false} PrintControlFree(v: Json.Value)
    requires Calm(v)
    ensures ControlFree(Json.Print(Json.Escape, v))
    decreases v, 1
  {
    match v
    case Str(s) => EscapedControlFree(s);
    case Arr(items) => ItemsControlFree(items);
    case Obj(fields) => FieldsControlFree(fields);
    case _ =>
  }

  lemma {:induction false} ItemsControlFree(items: seq<Json.Value>)
    requires forall i :: 0 <= i < |items| ==> Calm(items[i])
    ensures ControlFree(Json.PrintItems(Json.Escape, items))
    decreases items, 0
  {
    if items != [] {
      PrintControlFree(items[0]);
      ItemsControlFree(items[1..]);
    }
  }

  lemma {:induction false} FieldsControlFree(fields: seq<Json.Field>)
    requires forall i :: 0 <= i < |fields| ==> ControlFree(fields[i].key) && Calm(fields[i].value)
    ensures ControlFree(Json.PrintFields(Json.Escape, fields))
    decreases fields, 0
  {
    if fields != [] {
      EscapedControlFree(fields[0].key);
      PrintControlFree(fields[0].value);
      FieldsControlFree(fields[1..]);
    }
  }

  lemma EntryCalm(command: string, seconds: string)
    requires ControlFree(command) && ControlFree(seconds)
    ensures Calm(HookEntry(command, seconds))
  {
    var inner := HookEntry(command, seconds).items[0].fields[0].value;
    assert Calm(inner.items[0]);
    assert Calm(HookEntry(command, seconds).items[0]);
  }

  lemma SettingsCalm(start: string, stop: string, submit: string)
    requires ControlFree(start) && ControlFree(stop) && ControlFree(submit)
    ensures Calm(Settings(start, stop, submit))
  {
    EntryCalm(start, "5");
    EntryCalm(stop, "5");
    EntryCalm(submit, "10");
    EventsControlFree();
    ThreeCalm(Json.Field("SessionStart", HookEntry(start, "5")), Json.Field("Stop", HookEntry(stop, "5")),
              Json.Field("UserPromptSubmit", HookEntry(submit, "10")));
    assert Calm(Settings(start, stop, submit).fields[0].value);
  }

  lemma EventsControlFree()
    ensures ControlFree("hooks") && ControlFree("SessionStart") && ControlFree("Stop")
    ensures ControlFree("UserPromptSubmit")
  {
  }

  lemma ThreeCalm(f: Json.Field, g: Json.Field, h: Json.Field)
    requires ControlFree(f.key) && ControlFree(g.key) && ControlFree(h.key)
    requires Calm(f.value) && Calm(g.value) && Calm(h.value)
    ensures Calm(Json.Obj([f, g, h]))
  {
  }

  lemma CommandControlFree(executable: string, leaf: string)
    requires ControlFree(executable) && ControlFree(leaf)
    ensures ControlFree(HookCommand(executable, leaf))
  {
    QuotedControlFree(executable);
    SpacedControlFree([Quoted(executable), "hook", "claude", leaf]);
  }

  lemma SettingsControlFree(executable: string)
    requires ControlFree(executable)
    ensures ControlFree(SettingsText(executable))
  {
    CommandControlFree(executable, "chair-start");
    CommandControlFree(executable, "chair-stop");
    CommandControlFree(executable, "chair-prompt");
    SettingsCalm(HookCommand(executable, "chair-start"), HookCommand(executable, "chair-stop"),
                 HookCommand(executable, "chair-prompt"));
    PrintControlFree(SettingsFor(executable));
  }

  lemma ScriptTextControlFree()
    ensures ControlFree("cd") && ControlFree("&&") && ControlFree("claude") && ControlFree("--settings")
    ensures ControlFree("CLAUDE_CONFIG_DIR=") && ControlFree("PROVENANT_STATE_DIR=")
  {
  }

  lemma AppendControlFree(a: string, b: string)
    requires ControlFree(a) && ControlFree(b)
    ensures ControlFree(a + b)
  {
  }

  lemma ScriptControlFree(cwd: string, target: string, state: string, settings: string, prompt: string)
    requires ControlFree(cwd) && ControlFree(target) && ControlFree(state)
    requires ControlFree(settings) && ControlFree(prompt)
    ensures ControlFree(ScriptOf(cwd, target, state, settings, prompt))
  {
    QuotedControlFree(cwd);
    QuotedControlFree(target);
    QuotedControlFree(state);
    QuotedControlFree(settings);
    QuotedControlFree(prompt);
    ScriptTextControlFree();
    AppendControlFree("CLAUDE_CONFIG_DIR=", Quoted(target));
    AppendControlFree("PROVENANT_STATE_DIR=", Quoted(state));
    SpacedControlFree(ScriptWords(cwd, target, state, settings, prompt));
  }

  lemma LineControlFree(script: string)
    requires ControlFree(script)
    ensures ControlFree(LineOf(script))
  {
    QuotedControlFree(script);
    SpacedControlFree(["/bin/sh", "-c", Quoted(script)]);
  }

  /** No newline or other control character can end the line early while it is typed into the pane. */
  lemma LaunchCanBeTyped(l: Launch)
    requires Launchable(l) && ControlFree(l.prose.before) && ControlFree(l.prose.after)
    ensures ControlFree(LaunchLine(l).value)
  {
    SettingsControlFree(l.executable.text);
    ScriptControlFree(l.cwd.text, l.target.text, l.state.text, SettingsText(l.executable.text),
                      Prompt(l.prose, l.checkpoint.text));
    LineControlFree(Script(l).value);
  }
}
