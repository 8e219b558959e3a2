/**
 The build script's inventory of tracked source files: a walk over a directory tree that keeps tracked regular
 files, refuses anything tracked that is not one, and reads the kept files under byte and count limits.
 */
module SourceInventory {
  import opened Basics
  import opened Ledger

  const MAX_FILE_BYTES: nat := 16 * 1024 * 1024
  const MAX_FILES: nat := 100_000
  const MAX_TOTAL_BYTES: nat := 256 * 1024 * 1024

  /** The entries of a directory in the order they are read. */
  datatype Tree = Nil | More(name: string, node: Node, rest: Tree)
  datatype Node = File(content: seq<Byte>, executable: bool) | Dir(entries: Tree) | Symlink | Other

  predicate Git(name: string) {
    name == ".git"
  }

  predicate Generated(name: string) {
    name in {
      "__pycache__", ".pytest_cache", ".mypy_cache", ".ruff_cache", ".cache", ".tox", ".venv", "venv", "node_modules",
      "dist", "build", "target", ".agent-run"
    }
  }

  datatype Found = Found(path: string, content: seq<Byte>, executable: bool)

  // ---- Tracked names: paths relative to the repository, joined by slashes ----

  function Child(path: string, name: string): string {
    if path == "" then name else path + "/" + name
  }

  function Inside(path: string): string {
    if path == "" then "" else path + "/"
  }

  predicate HasDescendant(tracked: set<string>, path: string) {
    exists n :: n in tracked && Inside(path) <= n
  }

  predicate Skipped(name: string, dir: bool) {
    Git(name) || (dir && Generated(name))
  }

  // ---- What the walk selects and refuses ----

  /** What the walk asks of the index and of an entry's name. */
  datatype Rules = Rules(
    contains: string -> bool, hasDescendant: string -> bool, skips: (string, bool) -> bool)

  function RulesOf(tracked: set<string>): Rules {
    Rules(p => p in tracked, p => HasDescendant(tracked, p), (name, dir) => Skipped(name, dir))
  }

  function Selected(t: Rules, path: string, e: Tree): seq<Found>
    decreases e
  {
    match e
    case Nil => []
    case More(name, node, rest) =>
      (if t.skips(name, node.Dir?) then [] else Kept(t, Child(path, name), node)) + Selected(t, path, rest)
  }

  function Kept(t: Rules, p: string, node: Node): seq<Found>
    decreases node
  {
    match node
    case File(content, executable) => if t.contains(p) then [Found(p, content, executable)] else []
    case Dir(entries) => if t.hasDescendant(p) then Selected(t, p, entries) else []
    case _ => []
  }

  /** Something tracked is not what the index says: a link, a device, a directory for a file or the reverse. */
  predicate Refused(t: Rules, path: string, e: Tree)
    decreases e
  {
    match e
    case Nil => false
    case More(name, node, rest) =>
      || (!t.skips(name, node.Dir?) && Bad(t, Child(path, name), node))
      || Refused(t, path, rest)
  }

  predicate Bad(t: Rules, p: string, node: Node)
    decreases node
  {
    match node
    case File(_, _) => t.hasDescendant(p)
    case Dir(entries) => t.contains(p) || (t.hasDescendant(p) && Refused(t, p, entries))
    case _ => t.contains(p) || t.hasDescendant(p)
  }

  // ---- Exactness ----

  /** Names in one directory are distinct, not empty and free of slashes. */
  predicate WellFormed(e: Tree) {
    match e
    case Nil => true
    case More(name, node, rest) =>
      && name != "" && '/' !in name && Find(rest, name) == None
      && (node.Dir? ==> WellFormed(node.entries)) && WellFormed(rest)
  }

  function Find(e: Tree, name: string): Option<Node> {
    match e
    case Nil => None
    case More(n, node, rest) => if n == name then Some(node) else Find(rest, name)
  }

  /** The node at a path of names. */
  function Lookup(e: Tree, names: seq<string>): Option<Node>
    requires names != []
    decreases |names|
  {
    match Find(e, names[0])
    case None => None
    case Some(node) =>
      if |names| == 1 then Some(node)
      else if node.Dir? then Lookup(node.entries, names[1..])
      else None
  }

  function Join(path: string, names: seq<string>): string
    requires names != []
    decreases |names|
  {
    if |names| == 1 then Child(path, names[0]) else Join(Child(path, names[0]), names[1..])
  }

  /** No name on the way to the node, nor its own, is one that the walk skips. */
  predicate Visible(names: seq<string>, node: Node)
    requires names != []
    decreases |names|
  {
    !Skipped(names[0], |names| > 1 || node.Dir?) && (|names| > 1 ==> Visible(names[1..], node))
  }

  /**
   What the walk sees: no name on the way is `.git`, and no directory on the way, the node itself included, has one of
   the names of generated directories.
   */
  lemma {:induction false} VisibleExactly(names: seq<string>, node: Node)
    requires names != []
    ensures Visible(names, node) <==> forall i :: 0 <= i < |names| ==>
      && names[i] != ".git"
      && (i < |names| - 1 || node.Dir? ==>
            names[i] !in ["__pycache__", ".pytest_cache", ".mypy_cache", ".ruff_cache", ".cache", ".tox", ".venv",
                          "venv", "node_modules", "dist", "build", "target", ".agent-run"])
    decreases |names|
  {
    if |names| > 1 {
      VisibleExactly(names[1..], node);
      forall i | 0 < i < |names| ensures names[i] == names[1..][i - 1] {
      }
    }
  }

  /** A path cut at its slashes. */
  function Cut(path: string): (names: seq<string>)
    ensures names != []
  {
    if path == "" then [""]
    else
      var rest := Cut(path[1..]);
      if path[0] == '/' then [""] + rest else [[path[0]] + rest[0]] + rest[1..]
  }

  lemma {:induction false} CutName(name: string, rest: string)
    requires '/' !in name
    ensures Cut(name) == [name] && Cut(name + "/" + rest) == [name] + Cut(rest)
  {
    if name == "" {
      assert name + "/" + rest == "/" + rest && ("/" + rest)[1..] == rest;
    } else {
      CutName(name[1..], rest);
      assert (name + "/" + rest)[1..] == name[1..] + "/" + rest && (name + "/" + rest)[0] == name[0];
      HeadTail(name);
    }
  }

  /** Joined names are the path of those names: cutting it at its slashes gives them back. */
  lemma {:induction false} JoinCuts(names: seq<string>)
    requires names != [] && forall i :: 0 <= i < |names| ==> names[i] != "" && '/' !in names[i]
    ensures Cut(Join("", names)) == names
    decreases |names|
  {
    if |names| == 1 {
      CutName(names[0], "");
    } else {
      JoinBelow(names[0], names[1..]);
      JoinCuts(names[1..]);
      CutName(names[0], Join("", names[1..]));
      HeadTail(names);
    }
  }

  lemma {:induction false} JoinBelow(path: string, names: seq<string>)
    requires names != [] && path != "" && forall i :: 0 <= i < |names| ==> names[i] != ""
    ensures Join(path, names) == path + "/" + Join("", names)
    decreases |names|
  {
    if |names| > 1 {
      JoinBelow(Child(path, names[0]), names[1..]);
      JoinBelow(names[0], names[1..]);
      Group3(path + "/", names[0], "/", Join("", names[1..]));
    }
  }

  /** The path of names leads to this tracked regular file, outside the excluded directories. */
  ghost predicate Leads(tracked: set<string>, path: string, e: Tree, names: seq<string>, f: Found) {
    && names != [] && Lookup(e, names) == Some(File(f.content, f.executable))
    && Join(path, names) == f.path && f.path in tracked && Visible(names, File(f.content, f.executable))
  }

  lemma {:induction false} JoinInside(path: string, names: seq<string>)
    requires names != [] && names[0] != ""
    ensures Inside(path) <= Join(path, names)
    ensures |names| > 1 ==> Inside(Child(path, names[0])) <= Join(path, names)
    decreases |names|
  {
    if |names| > 1 {
      JoinDeeper(Child(path, names[0]), names[1..]);
    }
  }

  /** Joining onto a non-empty path stays inside it. */
  lemma {:induction false} JoinDeeper(path: string, names: seq<string>)
    requires names != [] && path != ""
    ensures path + "/" <= Join(path, names)
    decreases |names|
  {
    if |names| > 1 {
      JoinDeeper(Child(path, names[0]), names[1..]);
    }
  }

  /** Every selected file is a tracked regular file outside the excluded directories, found by its path. */
  lemma {:induction false} SelectedIsTracked(tracked: set<string>, path: string, e: Tree, f: Found)
    returns (names: seq<string>)
    requires WellFormed(e) && f in Selected(RulesOf(tracked), path, e)
    ensures Leads(tracked, path, e, names, f)
    decreases e
  {
    var here := if Skipped(e.name, e.node.Dir?) then [] else Kept(RulesOf(tracked), Child(path, e.name), e.node);
    if f in here {
      if e.node.File? {
        names := [e.name];
      } else {
        var deeper := SelectedIsTracked(tracked, Child(path, e.name), e.node.entries, f);
        names := [e.name] + deeper;
        assert names[1..] == deeper;
      }
    } else {
      names := SelectedIsTracked(tracked, path, e.rest, f);
      FindDistinct(e, names[0]);
    }
  }

  lemma FindDistinct(e: Tree, name: string)
    requires WellFormed(e) && e.More? && Find(e.rest, name).Some?
    ensures name != e.name
  {
  }

  lemma {:induction false} FindNamed(e: Tree, name: string)
    requires WellFormed(e) && Find(e, name).Some?
    ensures name != "" && '/' !in name
    ensures Find(e, name).value.Dir? ==> WellFormed(Find(e, name).value.entries)
    decreases e
  {
    if e.name != name { FindNamed(e.rest, name); }
  }

  /** Every tracked regular file outside the excluded directories is selected. */
  lemma {:induction false} TrackedIsSelected(
    tracked: set<string>, path: string, e: Tree, names: seq<string>, f: Found)
    requires WellFormed(e) && Leads(tracked, path, e, names, f)
    ensures f in Selected(RulesOf(tracked), path, e)
    decreases e
  {
    if e.name != names[0] {
      TrackedIsSelected(tracked, path, e.rest, names, f);
    } else if |names| > 1 {
      JoinInside(path, names);
      assert HasDescendant(tracked, Child(path, e.name));
      TrackedIsSelected(tracked, Child(path, e.name), e.node.entries, names[1..], f);
    }
  }

  /** The walk selects exactly the tracked regular files beneath the root that no excluded directory holds. */
  lemma SelectedExactly(tracked: set<string>, path: string, e: Tree, f: Found)
    requires WellFormed(e)
    ensures f in Selected(RulesOf(tracked), path, e) <==> exists names :: Leads(tracked, path, e, names, f)
  {
    if f in Selected(RulesOf(tracked), path, e) {
      var names := SelectedIsTracked(tracked, path, e, f);
    }
    forall names | Leads(tracked, path, e, names, f) ensures f in Selected(RulesOf(tracked), path, e) {
      TrackedIsSelected(tracked, path, e, names, f);
    }
  }

  // ---- When the walk refuses ----

  /** The node at a path is not what the index says it is. */
  ghost predicate Misfit(tracked: set<string>, p: string, node: Node) {
    match node
    case File(_, _) => HasDescendant(tracked, p)
    case Dir(_) => p in tracked
    case _ => p in tracked || HasDescendant(tracked, p)
  }

  ghost predicate Offends(tracked: set<string>, path: string, e: Tree, names: seq<string>, node: Node) {
    && names != [] && Lookup(e, names) == Some(node) && Visible(names, node)
    && Misfit(tracked, Join(path, names), node)
  }

  lemma {:induction false} RefusedOffends(tracked: set<string>, path: string, e: Tree)
    returns (names: seq<string>, node: Node)
    requires WellFormed(e) && Refused(RulesOf(tracked), path, e)
    ensures Offends(tracked, path, e, names, node)
    decreases e
  {
    var p := Child(path, e.name);
    if !Skipped(e.name, e.node.Dir?) && Bad(RulesOf(tracked), p, e.node) {
      if Misfit(tracked, p, e.node) {
        names, node := [e.name], e.node;
      } else {
        var deeper;
        deeper, node := RefusedOffends(tracked, p, e.node.entries);
        names := [e.name] + deeper;
        assert names[1..] == deeper;
      }
    } else {
      names, node := RefusedOffends(tracked, path, e.rest);
      FindDistinct(e, names[0]);
    }
  }

  /** Something tracked at or below a joined path makes every directory on the way an ancestor of it. */
  lemma MisfitInside(tracked: set<string>, path: string, names: seq<string>, node: Node)
    requires |names| > 1 && names[0] != "" && Misfit(tracked, Join(path, names), node)
    ensures HasDescendant(tracked, Child(path, names[0]))
  {
    JoinInside(path, names);
    var p := Join(path, names);
    if p !in tracked {
      var n :| n in tracked && Inside(p) <= n;
      assert Inside(Child(path, names[0])) <= n;
    }
  }

  lemma {:induction false} OffendsRefused(
    tracked: set<string>, path: string, e: Tree, names: seq<string>, node: Node)
    requires WellFormed(e) && Offends(tracked, path, e, names, node)
    ensures Refused(RulesOf(tracked), path, e)
    decreases e
  {
    if e.name != names[0] {
      OffendsRefused(tracked, path, e.rest, names, node);
    } else if |names| > 1 {
      MisfitInside(tracked, path, names, node);
      OffendsRefused(tracked, Child(path, e.name), e.node.entries, names[1..], node);
    }
  }

  /** The walk refuses exactly when something it can see is not what the index says it is. */
  lemma RefusedExactly(tracked: set<string>, path: string, e: Tree)
    requires WellFormed(e)
    ensures Refused(RulesOf(tracked), path, e) <==> exists names, node :: Offends(tracked, path, e, names, node)
  {
    if Refused(RulesOf(tracked), path, e) {
      var names, node := RefusedOffends(tracked, path, e);
    }
    forall names, node | Offends(tracked, path, e, names, node) ensures Refused(RulesOf(tracked), path, e) {
      OffendsRefused(tracked, path, e, names, node);
    }
  }

  // ---- Each once ----

  predicate Under(path: string, name: string, p: string) {
    p == Child(path, name) || Child(path, name) + "/" <= p
  }

  /** The part of a path before its first slash. */
  function FirstName(p: string): string {
    if p == "" || p[0] == '/' then "" else [p[0]] + FirstName(p[1..])
  }

  lemma {:induction false} FirstNameIs(name: string, p: string)
    requires '/' !in name && (p == name || name + "/" <= p)
    ensures FirstName(p) == name
  {
    if name == "" {
      assert name + "/" == "/";
    } else {
      assert (name + "/")[1..] == name[1..] + "/" && p[0] == name[0];
      FirstNameIs(name[1..], p[1..]);
    }
  }

  /** A path lies under at most one entry of a directory. */
  lemma UnderOne(path: string, m: string, n: string, p: string)
    requires '/' !in m && '/' !in n && Under(path, m, p) && Under(path, n, p)
    ensures m == n
  {
    UnderFirst(path, m, p);
    UnderFirst(path, n, p);
  }

  lemma UnderFirst(path: string, name: string, p: string)
    requires '/' !in name && Under(path, name, p)
    ensures |Inside(path)| <= |p| && FirstName(p[|Inside(path)|..]) == name
  {
    assert Child(path, name) == Inside(path) + name;
    assert Child(path, name) + "/" == Inside(path) + (name + "/");
    FirstNameIs(name, p[|Inside(path)|..]);
  }

  lemma {:induction false} SelectedUnder(tracked: set<string>, path: string, e: Tree, f: Found)
    returns (name: string)
    requires WellFormed(e) && f in Selected(RulesOf(tracked), path, e)
    ensures Find(e, name).Some? && Under(path, name, f.path)
  {
    var names := SelectedIsTracked(tracked, path, e, f);
    name := names[0];
    FindNamed(e, name);
    JoinInside(path, names);
  }

  ghost predicate Distinct(fs: seq<Found>) {
    forall i, j :: 0 <= i < j < |fs| ==> fs[i].path != fs[j].path
  }

  lemma DistinctParts(a: seq<Found>, b: seq<Found>)
    requires Distinct(a) && Distinct(b)
    requires forall i, j :: 0 <= i < |a| && 0 <= j < |b| ==> a[i].path != b[j].path
    ensures Distinct(a + b)
  {
  }

  /** No path is selected twice. */
  lemma {:induction false} SelectedOnce(tracked: set<string>, path: string, e: Tree)
    requires WellFormed(e)
    ensures Distinct(Selected(RulesOf(tracked), path, e))
    decreases e
  {
    if e.More? {
      SelectedOnce(tracked, path, e.rest);
      if e.node.Dir? { SelectedOnce(tracked, Child(path, e.name), e.node.entries); }
      var here := if Skipped(e.name, e.node.Dir?) then [] else Kept(RulesOf(tracked), Child(path, e.name), e.node);
      var there := Selected(RulesOf(tracked), path, e.rest);
      forall i, j | 0 <= i < |here| && 0 <= j < |there| ensures here[i].path != there[j].path {
        HereAndThere(tracked, path, e, here[i], there[j]);
      }
      DistinctParts(here, there);
    }
  }

  lemma HereAndThere(tracked: set<string>, path: string, e: Tree, f: Found, g: Found)
    requires WellFormed(e) && e.More? && f in Kept(RulesOf(tracked), Child(path, e.name), e.node)
    requires g in Selected(RulesOf(tracked), path, e.rest)
    ensures f.path != g.path
  {
    KeptUnder(tracked, path, e, f);
    var name := SelectedUnder(tracked, path, e.rest, g);
    FindNamed(e.rest, name);
    if f.path == g.path {
      UnderOne(path, e.name, name, f.path);
    }
  }

  lemma KeptUnder(tracked: set<string>, path: string, e: Tree, f: Found)
    requires WellFormed(e) && e.More? && f in Kept(RulesOf(tracked), Child(path, e.name), e.node)
    ensures Under(path, e.name, f.path)
  {
    if e.node.Dir? {
      var names := SelectedIsTracked(tracked, Child(path, e.name), e.node.entries, f);
      FindNamed(e.node.entries, names[0]);
      JoinDeeper(Child(path, e.name), names);
    }
  }

  // ---- Untracked entries do not matter ----

  predicate Relevant(t: Rules, p: string) {
    t.contains(p) || t.hasDescendant(p)
  }

  /** The tree without any entry that is neither tracked nor an ancestor of a tracked name. */
  function Prune(t: Rules, path: string, e: Tree): Tree
    decreases e
  {
    match e
    case Nil => Nil
    case More(name, node, rest) =>
      if Relevant(t, Child(path, name))
      then More(name, PruneNode(t, Child(path, name), node), Prune(t, path, rest))
      else Prune(t, path, rest)
  }

  function PruneNode(t: Rules, p: string, node: Node): Node
    decreases node
  {
    if node.Dir? then Dir(Prune(t, p, node.entries)) else node
  }

  /** Removing every irrelevant entry, of any kind and at any depth, changes neither selection nor refusal. */
  lemma {:induction false} PruneChangesNothing(t: Rules, path: string, e: Tree)
    ensures Selected(t, path, Prune(t, path, e)) == Selected(t, path, e)
    ensures Refused(t, path, Prune(t, path, e)) == Refused(t, path, e)
    decreases e
  {
    if e.More? {
      PruneChangesNothing(t, path, e.rest);
      if e.node.Dir? { PruneChangesNothing(t, Child(path, e.name), e.node.entries); }
    }
  }

  /** Two trees that agree on their relevant entries give the same inventory. */
  lemma NonInterference(t: Rules, path: string, d: Tree, e: Tree)
    requires Prune(t, path, d) == Prune(t, path, e)
    ensures Selected(t, path, d) == Selected(t, path, e)
    ensures Refused(t, path, d) == Refused(t, path, e)
  {
    PruneChangesNothing(t, path, d);
    PruneChangesNothing(t, path, e);
  }

  // ---- Nor does the order of the entries ----

  /** Nothing there in either, or the same kind of thing; files with the same contents. */
  predicate SameKind(a: Option<Node>, b: Option<Node>) {
    match (a, b)
    case (None, None) => true
    case (Some(m), Some(n)) =>
      if m.File? || n.File? then m == n else m.Dir? == n.Dir? && m.Symlink? == n.Symlink? && m.Other? == n.Other?
    case _ => false
  }

  /** At this path of names, if it matters, the two trees hold the same kind of thing. */
  predicate AgreeAt(tracked: set<string>, path: string, d: Tree, e: Tree, names: seq<string>)
    requires names != []
  {
    Relevant(RulesOf(tracked), Join(path, names)) ==> SameKind(Lookup(d, names), Lookup(e, names))
  }

  ghost predicate Agree(tracked: set<string>, path: string, d: Tree, e: Tree) {
    forall names: seq<string> :: names != [] ==> AgreeAt(tracked, path, d, e, names)
  }

  lemma LeadsInBoth(tracked: set<string>, path: string, d: Tree, e: Tree, names: seq<string>, f: Found)
    requires Agree(tracked, path, d, e) && Leads(tracked, path, d, names, f)
    ensures Leads(tracked, path, e, names, f)
  {
    assert AgreeAt(tracked, path, d, e, names);
  }

  lemma SelectedInBoth(tracked: set<string>, path: string, d: Tree, e: Tree, f: Found)
    requires WellFormed(d) && WellFormed(e) && Agree(tracked, path, d, e) && f in Selected(RulesOf(tracked), path, d)
    ensures f in Selected(RulesOf(tracked), path, e)
  {
    var names := SelectedIsTracked(tracked, path, d, f);
    LeadsInBoth(tracked, path, d, e, names, f);
    TrackedIsSelected(tracked, path, e, names, f);
  }

  lemma RefusedInBoth(tracked: set<string>, path: string, d: Tree, e: Tree)
    requires WellFormed(d) && WellFormed(e) && Agree(tracked, path, d, e) && Refused(RulesOf(tracked), path, d)
    ensures Refused(RulesOf(tracked), path, e)
  {
    var names, node := RefusedOffends(tracked, path, d);
    assert AgreeAt(tracked, path, d, e, names);
    var other := Lookup(e, names).value;
    SameVisible(names, node, other);
    OffendsRefused(tracked, path, e, names, other);
  }

  lemma {:induction false} SameVisible(names: seq<string>, m: Node, n: Node)
    requires names != [] && m.Dir? == n.Dir?
    ensures Visible(names, m) == Visible(names, n)
    decreases |names|
  {
    if |names| > 1 { SameVisible(names[1..], m, n); }
  }

  lemma {:induction false} DistinctCounts(fs: seq<Found>, f: Found)
    requires Distinct(fs)
    ensures multiset(fs)[f] == if f in fs then 1 else 0
  {
    if fs != [] {
      var init, last := fs[..|fs| - 1], fs[|fs| - 1];
      assert fs == init + [last];
      DistinctCounts(init, f);
    }
  }

  lemma SameFiles(a: seq<Found>, b: seq<Found>)
    requires Distinct(a) && Distinct(b) && forall f :: f in a <==> f in b
    ensures multiset(a) == multiset(b)
  {
    forall f ensures multiset(a)[f] == multiset(b)[f] {
      DistinctCounts(a, f);
      DistinctCounts(b, f);
    }
  }

  lemma AgreeBack(tracked: set<string>, path: string, d: Tree, e: Tree)
    requires Agree(tracked, path, d, e)
    ensures Agree(tracked, path, e, d)
  {
    forall names: seq<string> | names != [] ensures AgreeAt(tracked, path, e, d, names) {
      assert AgreeAt(tracked, path, d, e, names);
    }
  }

  /**
   Two trees that hold the same things wherever it matters, in whatever order and beside whatever else, give the same
   files, the same refusal and, under any limits, the same success.
   */
  lemma OrderFreeInventory(tracked: set<string>, path: string, d: Tree, e: Tree, l: Load)
    requires WellFormed(d) && WellFormed(e) && Agree(tracked, path, d, e)
    ensures var t := RulesOf(tracked);
      && multiset(Selected(t, path, d)) == multiset(Selected(t, path, e))
      && Refused(t, path, d) == Refused(t, path, e)
      && Admits(l, Selected(t, path, d)) == Admits(l, Selected(t, path, e))
  {
    var t := RulesOf(tracked);
    AgreeBack(tracked, path, d, e);
    forall f ensures f in Selected(t, path, d) <==> f in Selected(t, path, e) {
      if f in Selected(t, path, d) { SelectedInBoth(tracked, path, d, e, f); }
      if f in Selected(t, path, e) { SelectedInBoth(tracked, path, e, d, f); }
    }
    SelectedOnce(tracked, path, d);
    SelectedOnce(tracked, path, e);
    SameFiles(Selected(t, path, d), Selected(t, path, e));
    LoadPermuted(FoundSize, Selected(t, path, d), Selected(t, path, e));
    if Refused(t, path, d) { RefusedInBoth(tracked, path, d, e); }
    if Refused(t, path, e) { RefusedInBoth(tracked, path, e, d); }
  }

  // ---- Reading under the limits ----

  datatype InputFile = InputFile(source: string, name: string, bytes: seq<Byte>, executable: bool)

  function FoundSize(f: Found): nat { |f.content| }

  function FileSize(f: InputFile): nat { |f.bytes| }

  /** The file as it is recorded, under the name a caller gives it. */
  function Record(name: string -> string): Found -> InputFile {
    (f: Found) => InputFile(f.path, name(f.path), f.content, f.executable)
  }

  predicate WithinLimits(l: Load) {
    l.count <= MAX_FILES && l.bytes <= MAX_TOTAL_BYTES && l.largest <= MAX_FILE_BYTES
  }

  /** What an inventory looks like from outside: the files and the load the limits apply to. */
  datatype Book = Book(files: seq<InputFile>, load: Load)

  /** The book moved on by exactly these files, and the limits hold. */
  ghost predicate Grown(before: Book, after: Book, fs: seq<Found>, name: string -> string) {
    && after.files == before.files + Mapped(Record(name), fs)
    && after.load == Plus(before.load, LoadOf(FoundSize, fs)) && WithinLimits(after.load)
  }

  /** The limits leave room for these files. */
  predicate Admits(l: Load, fs: seq<Found>) {
    WithinLimits(Plus(l, LoadOf(FoundSize, fs)))
  }

  function TotalSize(fs: seq<Found>): nat {
    if fs == [] then 0 else |fs[0].content| + TotalSize(fs[1..])
  }

  /** An empty inventory admits at most 100000 files of at most 16 MiB each and 256 MiB together. */
  lemma LimitsExactly(fs: seq<Found>)
    ensures Admits(Load(0, 0, 0), fs) <==>
      && |fs| <= 100000 && TotalSize(fs) <= 268435456
      && forall i :: 0 <= i < |fs| ==> |fs[i].content| <= 16777216
  {
    var load := LoadOf(FoundSize, fs);
    PlusNothing(load);
    LimitsOf(load);
    LoadMeans(FoundSize, fs, 16777216);
    TotalIsBytes(fs);
  }

  lemma LimitsOf(l: Load)
    ensures WithinLimits(l) <==> l.count <= 100000 && l.bytes <= 268435456 && l.largest <= 16777216
  {
  }

  lemma {:induction false} TotalIsBytes(fs: seq<Found>)
    ensures LoadOf(FoundSize, fs).bytes == TotalSize(fs)
  {
    if fs != [] { TotalIsBytes(fs[1..]); }
  }

  lemma NothingGrown(b: Book, name: string -> string)
    requires WithinLimits(b.load)
    ensures Grown(b, b, [], name)
  {
    JoinNothing(b.files);
  }

  lemma GrownTwice(a: Book, b: Book, c: Book, fs: seq<Found>, gs: seq<Found>, name: string -> string)
    requires Grown(a, b, fs, name) && Grown(b, c, gs, name)
    ensures Grown(a, c, fs + gs, name)
  {
    LoadParts(FoundSize, fs, gs);
    MappedParts(Record(name), fs, gs);
    Group2(a.files, Mapped(Record(name), fs), Mapped(Record(name), gs));
  }

  /** If the limits do not admit the next part of a selection they do not admit the whole of it. */
  lemma TooMuch(a: Book, b: Book, done: seq<Found>, here: seq<Found>, later: seq<Found>, name: string -> string)
    requires Grown(a, b, done, name) && !Admits(b.load, here)
    ensures !Admits(a.load, done + (here + later))
  {
    LoadParts(FoundSize, done, here + later);
    LoadParts(FoundSize, here, later);
  }

  class Inputs {
    var files: seq<InputFile>
    var totalBytes: nat

    ghost function State(): Book
      reads this
    {
      Book(files, LoadOf(FileSize, files))
    }

    /** The running total is exact and every limit is kept. */
    ghost predicate Valid()
      reads this
    {
      State().load.count == |files| && State().load.bytes == totalBytes && WithinLimits(State().load)
    }

    constructor ()
      ensures Valid() && files == []
    {
      files, totalBytes := [], 0;
    }

    /** Reads at most one byte more than is allowed, and records the file only if the limits admit it. */
    method ReadFile(f: Found, name: string -> string) returns (ok: bool)
      requires Valid()
      modifies this
      ensures Valid()
      ensures ok == Admits(old(State()).load, [f])
      ensures ok ==> Grown(old(State()), State(), [f], name)
      ensures !ok ==> State() == old(State())
      ensures ok <==>
        && |old(files)| < 100000 && |f.content| <= 16777216 && old(totalBytes) + |f.content| <= 268435456
      ensures files == old(files) + if ok then [InputFile(f.path, name(f.path), f.content, f.executable)] else []
      ensures totalBytes == old(totalBytes) + if ok then |f.content| else 0
    {
      LoadOne(FoundSize, f);
      LoadMeans(FileSize, files, 0);
      MappedOne(Record(name), f);
      JoinNothing(files);
      if |files| >= MAX_FILES { return false; }
      var remaining := MAX_TOTAL_BYTES - totalBytes;
      var limit := if MAX_FILE_BYTES < remaining then MAX_FILE_BYTES else remaining;
      var bytes := if |f.content| <= limit + 1 then f.content else f.content[..limit + 1];
      if |bytes| > limit { return false; }
      LoadPush(FileSize, files, InputFile(f.path, name(f.path), bytes, f.executable));
      totalBytes := totalBytes + |bytes|;
      files := files + [InputFile(f.path, name(f.path), bytes, f.executable)];
      return true;
    }

    /**
     The walk. It succeeds exactly when nothing is refused and the limits admit everything selected, whatever the
     order of the entries, and then it has recorded the selection.
     */
    method CollectTree(t: Rules, path: string, entries: Tree, name: string -> string) returns (ok: bool)
      requires Valid()
      modifies this
      ensures Valid()
      ensures ok ==> !Refused(t, path, entries) && Grown(old(State()), State(), Selected(t, path, entries), name)
      ensures !ok ==> Refused(t, path, entries) || !Admits(old(State()).load, Selected(t, path, entries))
      decreases entries
    {
      var rest := entries;
      ghost var done: seq<Found> := [];
      JoinNothing(Selected(t, path, entries));
      NothingGrown(State(), name);
      while rest.More?
        invariant Valid()
        invariant Selected(t, path, entries) == done + Selected(t, path, rest)
        invariant Refused(t, path, entries) == Refused(t, path, rest)
        invariant Grown(old(State()), State(), done, name)
        decreases rest
      {
        if !t.skips(rest.name, rest.node.Dir?) {
          ghost var before := State();
          ghost var here := Kept(t, Child(path, rest.name), rest.node);
          ghost var later := Selected(t, path, rest.rest);
          var fine := Visit(t, Child(path, rest.name), rest.node, name);
          if !fine {
            if !Admits(before.load, here) {
              TooMuch(old(State()), before, done, here, later, name);
            }
            return false;
          }
          GrownTwice(old(State()), before, State(), done, here, name);
          Group2(done, here, later);
          done := done + here;
        }
        JoinNothing(Selected(t, path, rest.rest));
        rest := rest.rest;
      }
      JoinNothing(done);
      return true;
    }

    /** What the walk does with one entry that it does not skip. */
    method Visit(t: Rules, p: string, node: Node, name: string -> string) returns (ok: bool)
      requires Valid()
      modifies this
      ensures Valid()
      ensures ok ==> !Bad(t, p, node) && Grown(old(State()), State(), Kept(t, p, node), name)
      ensures !ok ==> Bad(t, p, node) || !Admits(old(State()).load, Kept(t, p, node))
      decreases node
    {
      match node {
        case Dir(entries) =>
          if t.contains(p) { return false; }
          if t.hasDescendant(p) {
            ok := CollectTree(t, p, entries, name);
            return;
          }
        case File(content, executable) =>
          if t.hasDescendant(p) { return false; }
          if t.contains(p) {
            ok := ReadFile(Found(p, content, executable), name);
            return;
          }
        case _ =>
          if t.contains(p) || t.hasDescendant(p) { return false; }
      }
      return true;
    }
  }

  /** The root of a walk: a missing directory is an error only when it is required, and it must be a directory. */
  method CollectRoot(
    inputs: Inputs, t: Rules, path: string, root: Option<Node>, required: bool, name: string -> string)
    returns (ok: bool)
    requires inputs.Valid()
    modifies inputs
    ensures inputs.Valid()
    ensures root == None ==> ok == !required && inputs.State() == old(inputs.State())
    ensures root.Some? && ok ==>
      && root.value.Dir? && !Refused(t, path, root.value.entries)
      && Grown(old(inputs.State()), inputs.State(), Selected(t, path, root.value.entries), name)
    ensures root.Some? && !ok ==>
      || !root.value.Dir? || Refused(t, path, root.value.entries)
      || !Admits(old(inputs.State()).load, Selected(t, path, root.value.entries))
  {
    if root.None? { return !required; }
    if !root.value.Dir? { return false; }
    ok := inputs.CollectTree(t, path, root.value.entries, name);
  }
}
