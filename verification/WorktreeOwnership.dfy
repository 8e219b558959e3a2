/**
 The hook's two-record ownership of worktrees: one copy of the record in the worktree's Git admin directory, which
 disappears with the worktree, and one in Provenant's state, under a file name hashed from the path. A hook creates a
 worktree, resolves its path again, writes one record and then the other; every other thing that can happen to a
 worktree, other hooks included, may happen between any two of these steps.
 */
module WorktreeOwnership {
  import opened Basics

  datatype Ownership = Ownership(path: string, branch: string, head: string, token: string)

  /** A written record. `hook` is the one that wrote it; it is not in the file, and no step looks at it. */
  datatype Mark = Mark(o: Ownership, hook: nat)

  /** A linked worktree: which creation it is, its admin directory's name, its branch unless detached, its record. */
  datatype Tree = Tree(id: nat, admin: nat, branch: Option<string>, head: string, marker: Option<Mark>)

  datatype Checkout = Checkout(path: string, branch: Option<string>)

  /** What a hook in flight does next. */
  datatype Job =
    | Made(path: string, branch: string, head: string)  // created its worktree; about to resolve the path again
    | Resolved(o: Ownership, admin: nat)                // about to write the state-side record
    | Recorded(o: Ownership, admin: nat)                // about to write the marker
    | Removing(path: string)                            // checked the records; about to remove
    | Forgetting(path: string)                          // about to drop the state-side record

  /** What a creating hook did: the worktree it made, what it resolved, and the worktree its marker landed in. */
  datatype Account = Account(made: nat, owns: Option<Ownership>, landed: Option<nat>)

  /** Worktrees by canonical path, records by file name, hooks by number, and an account that no step looks at. */
  datatype World = World(
    primary: Checkout, trees: map<string, Tree>, records: map<nat, Mark>, jobs: map<nat, Job>,
    account: map<nat, Account>, nextTree: nat, nextJob: nat)

  /** File names of records; two paths may share one. */
  type Naming = string -> nat

  // ---- Reading the records ----

  function OwnedRecord(name: Naming, w: World, path: string): Option<Ownership> {
    if path !in w.trees then None
    else
      var marker := w.trees[path].marker;
      if marker.None? || name(path) !in w.records then None
      else
        var stored := w.records[name(path)].o;
        if marker.value.o == stored && stored.token != "" && stored.path == path then Some(stored) else None
  }

  predicate HookOwned(name: Naming, w: World, path: string, branch: string, head: string) {
    var r := OwnedRecord(name, w, path);
    r.Some? && r.value.branch == branch && r.value.head == head
  }

  // ---- Steps ----

  datatype Event =
    | HookCreate(path: string, branch: string, head: string, admin: nat)
    | Resolve(job: nat, token: string)
    | WriteRecord(job: nat)
    | WriteMarker(job: nat, at: Option<string>)            // `at` is where the worktree with that admin directory is
    | CheckRemove(path: string)
    | HookRemove(job: nat, found: string)                  // the owner removes the worktree that the name means
    | Forget(job: nat)
    | Abandon(job: nat)                                    // the hook stops, or its next write fails
    | HandCreate(path: string, on: Option<string>, head: string, admin: nat)
    | GitRemove(path: string)
    | GitMove(path: string, to: string)
    | Advance(path: string, on: Option<string>, head: string)  // a commit or a checkout
    | SwitchPrimary(on: Option<string>)                // a checkout in the primary
    | LoseRecord(file: nat)
    | LoseMarker(path: string)

  /** A worktree can be made here: nothing is at the path, and the admin directory's name is free. */
  predicate Free(w: World, path: string, admin: nat) {
    path !in w.trees && path != w.primary.path && forall q :: q in w.trees ==> w.trees[q].admin != admin
  }

  predicate Fresh(w: World, token: string) {
    token != "" && forall j :: j in w.account && w.account[j].owns.Some? ==> w.account[j].owns.value.token != token
  }

  /** The worktree whose admin directory has this name now; without one there is nowhere to write. */
  predicate AdminAt(w: World, admin: nat, at: Option<string>) {
    if at.Some? then at.value in w.trees && w.trees[at.value].admin == admin
    else forall q :: q in w.trees ==> w.trees[q].admin != admin
  }

  /** The last component of a canonical path; empty for the root. */
  function LastName(path: string): string {
    if path == "" || path[|path| - 1] == '/' then "" else LastName(path[..|path| - 1]) + [path[|path| - 1]]
  }

  /** A checkout answers to a name by its directory or by its branch. */
  predicate AnswersTo(path: string, branch: Option<string>, wanted: string) {
    wanted != "" && (LastName(path) == wanted || branch == Some(wanted))
  }

  /** The worktree that a name means, wherever it lies: no other one answers to it, nor does the primary checkout. */
  predicate Named(w: World, wanted: string, at: string) {
    && at in w.trees && AnswersTo(at, w.trees[at].branch, wanted)
    && !AnswersTo(w.primary.path, w.primary.branch, wanted)
    && forall q :: q in w.trees && q != at ==> !AnswersTo(q, w.trees[q].branch, wanted)
  }

  /** The conditions on `account` always hold (see `Inv`); they only make the steps well defined. */
  predicate Enabled(name: Naming, w: World, e: Event) {
    match e
    case HookCreate(path, _, _, admin) => Free(w, path, admin)
    case Resolve(job, token) =>
      job in w.jobs && w.jobs[job].Made? && w.jobs[job].path in w.trees && Fresh(w, token) && job in w.account
    case WriteRecord(job) => job in w.jobs && w.jobs[job].Resolved?
    case WriteMarker(job, at) =>
      job in w.jobs && w.jobs[job].Recorded? && AdminAt(w, w.jobs[job].admin, at) && job in w.account
    case CheckRemove(path) => OwnedRecord(name, w, path).Some?
    case HookRemove(job, at) =>
      job in w.jobs && w.jobs[job].Removing? && Named(w, LastName(w.jobs[job].path), at)
    case Forget(job) => job in w.jobs && w.jobs[job].Forgetting? && w.jobs[job].path !in w.trees
    case Abandon(job) => job in w.jobs
    case HandCreate(path, _, _, admin) => Free(w, path, admin)
    case GitRemove(path) => path in w.trees
    case GitMove(path, to) => path in w.trees && to !in w.trees && to != w.primary.path
    case Advance(path, _, _) => path in w.trees
    case SwitchPrimary(_) => true
    case LoseRecord(_) => true
    case LoseMarker(path) => path in w.trees
  }

  function Created(w: World, path: string, branch: Option<string>, head: string, admin: nat): World {
    w.(trees := w.trees[path := Tree(w.nextTree, admin, branch, head, None)], nextTree := w.nextTree + 1)
  }

  function Retreed(w: World, trees: map<string, Tree>): World {
    w.(trees := trees)
  }

  function Started(w: World, job: Job, account: map<nat, Account>): World {
    w.(jobs := w.jobs[w.nextJob := job], nextJob := w.nextJob + 1, account := account)
  }

  function Rejobbed(w: World, jobs: map<nat, Job>): World {
    w.(jobs := jobs)
  }

  function Resolving(w: World, job: nat, o: Ownership, admin: nat): World
    requires job in w.account
  {
    w.(jobs := w.jobs[job := Resolved(o, admin)],
       account := w.account[job := w.account[job].(owns := Some(o))])
  }

  function Recording(w: World, job: nat, o: Ownership, admin: nat, file: nat): World {
    w.(jobs := w.jobs[job := Recorded(o, admin)], records := w.records[file := Mark(o, job)])
  }

  function Landing(w: World, job: nat, o: Ownership, q: string): World
    requires q in w.trees && job in w.account
  {
    w.(trees := w.trees[q := w.trees[q].(marker := Some(Mark(o, job)))], jobs := w.jobs - {job},
       account := w.account[job := w.account[job].(landed := Some(w.trees[q].id))])
  }

  function Lost(w: World, file: nat): World {
    w.(records := w.records - {file})
  }

  function Switched(w: World, branch: Option<string>): World {
    w.(primary := w.primary.(branch := branch))
  }

  function Step(name: Naming, w: World, e: Event): World
    requires Enabled(name, w, e)
  {
    match e
    case HookCreate(path, branch, head, admin) =>
      var account := w.account[w.nextJob := Account(w.nextTree, None, None)];
      Started(Created(w, path, Some(branch), head, admin), Made(path, branch, head), account)
    case Resolve(job, token) =>
      var j := w.jobs[job];
      Resolving(w, job, Ownership(j.path, j.branch, j.head, token), w.trees[j.path].admin)
    case WriteRecord(job) =>
      var j := w.jobs[job];
      Recording(w, job, j.o, j.admin, name(j.o.path))
    case WriteMarker(job, at) =>
      if at.None? then Rejobbed(w, w.jobs - {job}) else Landing(w, job, w.jobs[job].o, at.value)
    case CheckRemove(path) => Started(w, Removing(path), w.account)
    case HookRemove(job, at) => Rejobbed(Retreed(w, w.trees - {at}), w.jobs[job := Forgetting(w.jobs[job].path)])
    case Forget(job) => Rejobbed(Lost(w, name(w.jobs[job].path)), w.jobs - {job})
    case Abandon(job) => Rejobbed(w, w.jobs - {job})
    case HandCreate(path, branch, head, admin) => Created(w, path, branch, head, admin)
    case GitRemove(path) => Retreed(w, w.trees - {path})
    case GitMove(path, to) => Retreed(w, (w.trees - {path})[to := w.trees[path]])
    case Advance(path, branch, head) =>
      Retreed(w, w.trees[path := w.trees[path].(branch := branch, head := head)])
    case SwitchPrimary(branch) => Switched(w, branch)
    case LoseRecord(file) => Lost(w, file)
    case LoseMarker(path) => Retreed(w, w.trees[path := w.trees[path].(marker := None)])
  }

  function Init(primary: Checkout): World {
    World(primary, map[], map[], map[], map[], 0, 0)
  }

  ghost predicate Runs(name: Naming, w: World, events: seq<Event>, v: World)
    decreases |events|
  {
    if events == [] then v == w
    else Enabled(name, w, events[0]) && Runs(name, Step(name, w, events[0]), events[1..], v)
  }

  // ---- What every step keeps ----

  /** The account knows the record: this hook resolved it. */
  ghost predicate Accounted(w: World, m: Mark) {
    m.hook in w.account && w.account[m.hook].owns == Some(m.o)
  }

  /** A marker is accounted for, and this is the worktree that its hook's marker landed in. */
  ghost predicate TreeOk(w: World, path: string)
    requires path in w.trees
  {
    var tree := w.trees[path];
    && tree.id < w.nextTree
    && (tree.marker.Some? ==>
          Accounted(w, tree.marker.value) && w.account[tree.marker.value.hook].landed == Some(tree.id))
  }

  ghost predicate TreesOk(w: World) {
    w.primary.path !in w.trees && forall path :: path in w.trees ==> TreeOk(w, path)
  }

  /** No creation is at two paths, and no two worktrees share an admin directory. */
  ghost predicate Apart(w: World) {
    forall p, q :: p in w.trees && q in w.trees && p != q ==>
      w.trees[p].id != w.trees[q].id && w.trees[p].admin != w.trees[q].admin
  }

  /** A hook in flight has not landed, and what it resolved is in the account. */
  ghost predicate JobOk(w: World, j: nat)
    requires j in w.jobs
  {
    j < w.nextJob &&
    match w.jobs[j]
    case Made(_, _, _) => j in w.account && w.account[j].owns.None? && w.account[j].landed.None?
    case Resolved(o, _) => j in w.account && w.account[j].owns == Some(o) && w.account[j].landed.None?
    case Recorded(o, _) => j in w.account && w.account[j].owns == Some(o) && w.account[j].landed.None?
    case _ => j !in w.account
  }

  ghost predicate JobsOk(w: World) {
    forall j :: j in w.jobs ==> JobOk(w, j)
  }

  predicate SameToken(a: Account, b: Account) {
    a.owns.Some? && b.owns.Some? && a.owns.value.token == b.owns.value.token
  }

  ghost predicate AccountOk(w: World) {
    && (forall j :: j in w.account ==> j < w.nextJob && w.account[j].made < w.nextTree)
    && (forall j :: j in w.account && w.account[j].owns.Some? ==> w.account[j].owns.value.token != "")
    && forall i, j :: i in w.account && j in w.account && SameToken(w.account[i], w.account[j]) ==> i == j
  }

  ghost predicate RecordsOk(w: World) {
    forall file :: file in w.records ==> Accounted(w, w.records[file])
  }

  ghost predicate Inv(w: World) {
    TreesOk(w) && Apart(w) && JobsOk(w) && AccountOk(w) && RecordsOk(w)
  }

  lemma CreatedInv(w: World, path: string, branch: Option<string>, head: string, admin: nat)
    requires Inv(w) && Free(w, path, admin)
    ensures Inv(Created(w, path, branch, head, admin))
  {
    var v := Created(w, path, branch, head, admin);
    forall p | p in v.trees ensures TreeOk(v, p) {
      if p != path { assert TreeOk(w, p); }
    }
    forall p | p in w.trees ensures w.trees[p].id != w.nextTree { assert TreeOk(w, p); }
    forall j | j in v.jobs ensures JobOk(v, j) { assert JobOk(w, j); }
    forall f | f in v.records ensures Accounted(v, v.records[f]) { assert Accounted(w, w.records[f]); }
  }

  /** Worktrees that go, or get another branch or no marker. */
  lemma FewerInv(w: World, v: World)
    requires Inv(w) && v == Retreed(w, v.trees)
    requires forall p :: p in v.trees ==>
      && p in w.trees && v.trees[p].id == w.trees[p].id && v.trees[p].admin == w.trees[p].admin
      && (v.trees[p].marker == w.trees[p].marker || v.trees[p].marker.None?)
    ensures Inv(v)
  {
    forall p | p in v.trees ensures TreeOk(v, p) { assert TreeOk(w, p); }
    forall j | j in v.jobs ensures JobOk(v, j) { assert JobOk(w, j); }
    forall f | f in v.records ensures Accounted(v, v.records[f]) { assert Accounted(w, w.records[f]); }
  }

  lemma MovedInv(w: World, path: string, to: string)
    requires Inv(w) && path in w.trees && to !in w.trees && to != w.primary.path
    ensures Inv(Retreed(w, (w.trees - {path})[to := w.trees[path]]))
  {
    var v := Retreed(w, (w.trees - {path})[to := w.trees[path]]);
    forall p | p in v.trees ensures TreeOk(v, p) { assert TreeOk(w, if p == to then path else p); }
    forall j | j in v.jobs ensures JobOk(v, j) { assert JobOk(w, j); }
    forall f | f in v.records ensures Accounted(v, v.records[f]) { assert Accounted(w, w.records[f]); }
  }

  lemma LostInv(w: World, file: nat)
    requires Inv(w)
    ensures Inv(Lost(w, file))
  {
    var v := Lost(w, file);
    forall p | p in v.trees ensures TreeOk(v, p) { assert TreeOk(w, p); }
    forall j | j in v.jobs ensures JobOk(v, j) { assert JobOk(w, j); }
    forall f | f in v.records ensures Accounted(v, v.records[f]) { assert Accounted(w, w.records[f]); }
  }

  lemma SwitchedInv(w: World, branch: Option<string>)
    requires Inv(w)
    ensures Inv(Switched(w, branch))
  {
    var v := Switched(w, branch);
    forall p | p in v.trees ensures TreeOk(v, p) { assert TreeOk(w, p); }
    forall j | j in v.jobs ensures JobOk(v, j) { assert JobOk(w, j); }
    forall f | f in v.records ensures Accounted(v, v.records[f]) { assert Accounted(w, w.records[f]); }
  }

  /** A hook ends, or one of those that remove moves on. */
  lemma RejobbedInv(w: World, v: World, job: nat)
    requires Inv(w) && v == Rejobbed(w, v.jobs)
    requires forall j :: j in v.jobs && j != job ==> j in w.jobs && v.jobs[j] == w.jobs[j]
    requires job in v.jobs ==> JobOk(v, job)
    ensures Inv(v)
  {
    forall p | p in v.trees ensures TreeOk(v, p) { assert TreeOk(w, p); }
    forall j | j in v.jobs ensures JobOk(v, j) {
      if j != job { assert JobOk(w, j); }
    }
    forall f | f in v.records ensures Accounted(v, v.records[f]) { assert Accounted(w, w.records[f]); }
  }

  /** A hook starts: one that made the worktree `id`, or one that only removes. */
  lemma StartedInv(w: World, job: Job, account: map<nat, Account>, id: nat)
    requires Inv(w)
    requires || (job.Removing? && account == w.account)
             || (job.Made? && id < w.nextTree && account == w.account[w.nextJob := Account(id, None, None)])
    ensures Inv(Started(w, job, account))
  {
    var v := Started(w, job, account);
    assert w.nextJob !in w.account;
    forall p | p in v.trees ensures TreeOk(v, p) { assert TreeOk(w, p); }
    forall j | j in v.jobs ensures JobOk(v, j) {
      if j != w.nextJob { assert JobOk(w, j); }
    }
    forall f | f in v.records ensures Accounted(v, v.records[f]) { assert Accounted(w, w.records[f]); }
  }

  lemma ResolvingInv(w: World, job: nat, o: Ownership, admin: nat)
    requires Inv(w) && job in w.jobs && w.jobs[job].Made? && Fresh(w, o.token) && job in w.account
    ensures Inv(Resolving(w, job, o, admin))
  {
    var v := Resolving(w, job, o, admin);
    assert JobOk(w, job);
    forall p | p in v.trees ensures TreeOk(v, p) { assert TreeOk(w, p); }
    forall j | j in v.jobs ensures JobOk(v, j) {
      if j != job { assert JobOk(w, j); }
    }
    forall f | f in v.records ensures Accounted(v, v.records[f]) { assert Accounted(w, w.records[f]); }
  }

  lemma RecordingInv(w: World, job: nat, o: Ownership, admin: nat, file: nat)
    requires Inv(w) && job in w.jobs && w.jobs[job] == Resolved(o, admin)
    ensures Inv(Recording(w, job, o, admin, file))
  {
    var v := Recording(w, job, o, admin, file);
    assert JobOk(w, job);
    forall p | p in v.trees ensures TreeOk(v, p) { assert TreeOk(w, p); }
    forall j | j in v.jobs ensures JobOk(v, j) {
      if j != job { assert JobOk(w, j); }
    }
    forall f | f in v.records ensures Accounted(v, v.records[f]) {
      if f != file { assert Accounted(w, w.records[f]); }
    }
  }

  lemma LandingInv(w: World, job: nat, o: Ownership, admin: nat, q: string)
    requires Inv(w) && job in w.jobs && w.jobs[job] == Recorded(o, admin) && q in w.trees && job in w.account
    ensures Inv(Landing(w, job, o, q))
  {
    var v := Landing(w, job, o, q);
    assert JobOk(w, job) && TreeOk(w, q);
    forall p | p in v.trees ensures TreeOk(v, p) {
      if p != q { assert TreeOk(w, p); }
    }
    forall j | j in v.jobs ensures JobOk(v, j) { assert JobOk(w, j); }
    forall f | f in v.records ensures Accounted(v, v.records[f]) { assert Accounted(w, w.records[f]); }
  }

  lemma CreateStepInv(name: Naming, w: World, e: Event)
    requires Inv(w) && Enabled(name, w, e)
    requires e.HookCreate? || e.Resolve? || e.WriteRecord? || e.WriteMarker?
    ensures Inv(Step(name, w, e))
  {
    match e
    case HookCreate(path, branch, head, admin) =>
      var made := Created(w, path, Some(branch), head, admin);
      CreatedInv(w, path, Some(branch), head, admin);
      StartedInv(made, Made(path, branch, head), Step(name, w, e).account, w.nextTree);
    case Resolve(job, token) =>
      var j := w.jobs[job];
      ResolvingInv(w, job, Ownership(j.path, j.branch, j.head, token), w.trees[j.path].admin);
    case WriteRecord(job) => RecordingInv(w, job, w.jobs[job].o, w.jobs[job].admin, name(w.jobs[job].o.path));
    case WriteMarker(job, at) =>
      if at.None? {
        RejobbedInv(w, Step(name, w, e), job);
      } else {
        LandingInv(w, job, w.jobs[job].o, w.jobs[job].admin, at.value);
      }
  }

  lemma RemoveStepInv(name: Naming, w: World, e: Event)
    requires Inv(w) && Enabled(name, w, e) && (e.CheckRemove? || e.HookRemove? || e.Forget? || e.Abandon?)
    ensures Inv(Step(name, w, e))
  {
    match e
    case CheckRemove(path) => StartedInv(w, Removing(path), w.account, 0);
    case HookRemove(job, at) =>
      assert JobOk(w, job);
      FewerInv(w, Retreed(w, w.trees - {at}));
      RejobbedInv(Retreed(w, w.trees - {at}), Step(name, w, e), job);
    case Forget(job) =>
      LostInv(w, name(w.jobs[job].path));
      RejobbedInv(Lost(w, name(w.jobs[job].path)), Step(name, w, e), job);
    case Abandon(job) => RejobbedInv(w, Step(name, w, e), job);
  }

  lemma InvStep(name: Naming, w: World, e: Event)
    requires Inv(w) && Enabled(name, w, e)
    ensures Inv(Step(name, w, e))
  {
    match e
    case HandCreate(path, branch, head, admin) => CreatedInv(w, path, branch, head, admin);
    case GitRemove(path) => FewerInv(w, Step(name, w, e));
    case GitMove(path, to) => MovedInv(w, path, to);
    case Advance(path, branch, head) => FewerInv(w, Step(name, w, e));
    case SwitchPrimary(branch) => SwitchedInv(w, branch);
    case LoseRecord(file) => LostInv(w, file);
    case LoseMarker(path) => FewerInv(w, Step(name, w, e));
    case _ =>
      if e.HookCreate? || e.Resolve? || e.WriteRecord? || e.WriteMarker? {
        CreateStepInv(name, w, e);
      } else {
        RemoveStepInv(name, w, e);
      }
  }

  lemma {:induction false} InvRun(name: Naming, w: World, events: seq<Event>, v: World)
    requires Inv(w) && Runs(name, w, events, v)
    ensures Inv(v)
    decreases |events|
  {
    if events != [] {
      InvStep(name, w, events[0]);
      InvRun(name, Step(name, w, events[0]), events[1..], v);
    }
  }

  lemma Reachable(name: Naming, primary: Checkout, events: seq<Event>, w: World)
    requires Runs(name, Init(primary), events, w)
    ensures Inv(w)
  {
    InvRun(name, Init(primary), events, w);
  }

  // ---- What the records prove ----

  /**
   In every run the records vouch for a worktree exactly when one and the same hook wrote both copies, for the path
   the worktree is at; and then this is the worktree that hook's marker landed in.
   */
  lemma OwnedExactly(name: Naming, primary: Checkout, events: seq<Event>, w: World, path: string)
    requires Runs(name, Init(primary), events, w) && path in w.trees
    ensures OwnedRecord(name, w, path).Some? <==>
      var marker := w.trees[path].marker;
      && marker.Some? && marker.value.o.path == path
      && name(path) in w.records && w.records[name(path)].hook == marker.value.hook
    ensures OwnedRecord(name, w, path).Some? ==>
      var m := w.trees[path].marker.value;
      && OwnedRecord(name, w, path) == Some(m.o)
      && m.hook in w.account && w.account[m.hook].owns == Some(m.o)
      && w.account[m.hook].landed == Some(w.trees[path].id)
  {
    Reachable(name, primary, events, w);
    assert TreeOk(w, path);
    if name(path) in w.records { assert Accounted(w, w.records[name(path)]); }
  }

  /** `hook_owned` on a worktree as it stands: a hook marked this worktree, for this path, branch and HEAD. */
  lemma HookOwnedMeans(name: Naming, primary: Checkout, events: seq<Event>, w: World, path: string)
    requires Runs(name, Init(primary), events, w)
    requires path in w.trees && w.trees[path].branch.Some?
    requires HookOwned(name, w, path, w.trees[path].branch.value, w.trees[path].head)
    ensures path != w.primary.path
    ensures var tree := w.trees[path];
      && tree.marker.Some? && tree.marker.value.hook in w.account
      && tree.marker.value.o == Ownership(path, tree.branch.value, tree.head, tree.marker.value.o.token)
      && w.account[tree.marker.value.hook].landed == Some(tree.id)
  {
    OwnedExactly(name, primary, events, w, path);
    Reachable(name, primary, events, w);
  }

  // ---- Following one worktree ----

  /** Where an event takes the worktree at `p`. */
  function Follow(e: Event, p: string): Option<string> {
    match e
    case GitRemove(q) => if q == p then None else Some(p)
    case HookRemove(_, q) => if q == p then None else Some(p)
    case GitMove(q, to) => Some(if q == p then to else p)
    case _ => Some(p)
  }

  /** Where a run of events takes it, read off the events alone. */
  function Track(events: seq<Event>, p: string): Option<string>
    decreases |events|
  {
    if events == [] then Some(p)
    else match Follow(events[0], p)
      case None => None
      case Some(q) => Track(events[1..], q)
  }

  ghost predicate Gone(w: World, id: nat) {
    id < w.nextTree && forall q :: q in w.trees ==> w.trees[q].id != id
  }

  /** The worktree is at `at`, or gone. */
  ghost predicate IsAt(w: World, id: nat, admin: nat, at: Option<string>) {
    if at.Some? then at.value in w.trees && w.trees[at.value].id == id && w.trees[at.value].admin == admin
    else Gone(w, id)
  }

  lemma FollowStep(name: Naming, w: World, e: Event, p: string)
    requires Enabled(name, w, e) && p in w.trees && w.trees[p].id < w.nextTree
    requires forall q :: q in w.trees && q != p ==> w.trees[q].id != w.trees[p].id
    ensures IsAt(Step(name, w, e), w.trees[p].id, w.trees[p].admin, Follow(e, p))
  {
  }

  lemma GoneStep(name: Naming, w: World, e: Event, id: nat)
    requires Enabled(name, w, e) && Gone(w, id)
    ensures Gone(Step(name, w, e), id)
  {
  }

  lemma {:induction false} GoneRun(name: Naming, w: World, events: seq<Event>, v: World, id: nat)
    requires Runs(name, w, events, v) && Gone(w, id)
    ensures Gone(v, id)
    decreases |events|
  {
    if events != [] {
      GoneStep(name, w, events[0], id);
      GoneRun(name, Step(name, w, events[0]), events[1..], v, id);
    }
  }

  lemma {:induction false} TrackRun(name: Naming, w: World, events: seq<Event>, v: World, p: string)
    requires Inv(w) && Runs(name, w, events, v) && p in w.trees
    ensures IsAt(v, w.trees[p].id, w.trees[p].admin, Track(events, p))
    decreases |events|
  {
    if events != [] {
      var next := Step(name, w, events[0]);
      InvStep(name, w, events[0]);
      assert TreeOk(w, p);
      FollowStep(name, w, events[0], p);
      match Follow(events[0], p)
      case None => GoneRun(name, next, events[1..], v, w.trees[p].id);
      case Some(q) => TrackRun(name, next, events[1..], v, q);
    }
  }

  /** Nothing removes or moves the worktree at `p`. */
  predicate Undisturbed(events: seq<Event>, p: string) {
    forall i :: 0 <= i < |events| ==> Follow(events[i], p) == Some(p)
  }

  lemma {:induction false} UndisturbedStays(events: seq<Event>, p: string)
    requires Undisturbed(events, p)
    ensures Track(events, p) == Some(p)
    decreases |events|
  {
    if events != [] {
      assert Follow(events[0], p) == Some(p);
      UndisturbedStays(events[1..], p);
    }
  }

  // ---- Following one hook ----

  /** How a hook in flight can go on. */
  predicate Later(a: Job, b: Job) {
    match a
    case Made(_, _, _) => b == a || b.Resolved? || b.Recorded?
    case Resolved(o, admin) => b == a || b == Recorded(o, admin)
    case Recorded(_, _) => b == a
    case Removing(path) => b == a || b == Forgetting(path)
    case Forgetting(_) => b == a
  }

  lemma JobStep(name: Naming, w: World, e: Event, j: nat)
    requires Enabled(name, w, e) && j < w.nextJob
    ensures var v := Step(name, w, e);
      && j < v.nextJob && (j in v.jobs ==> j in w.jobs && Later(w.jobs[j], v.jobs[j]))
  {
  }

  lemma {:induction false} JobRun(name: Naming, w: World, events: seq<Event>, v: World, j: nat)
    requires Runs(name, w, events, v) && j < w.nextJob
    ensures j < v.nextJob && (j in v.jobs ==> j in w.jobs && Later(w.jobs[j], v.jobs[j]))
    decreases |events|
  {
    if events != [] {
      JobStep(name, w, events[0], j);
      JobRun(name, Step(name, w, events[0]), events[1..], v, j);
    }
  }

  lemma AccountStep(name: Naming, w: World, e: Event, j: nat)
    requires Enabled(name, w, e) && j < w.nextJob && j !in w.jobs && j in w.account
    ensures var v := Step(name, w, e);
      j < v.nextJob && j !in v.jobs && j in v.account && v.account[j] == w.account[j]
  {
  }

  /** The account of a hook that has ended is closed. */
  lemma {:induction false} AccountRun(name: Naming, w: World, events: seq<Event>, v: World, j: nat)
    requires Runs(name, w, events, v) && j < w.nextJob && j !in w.jobs && j in w.account
    ensures j in v.account && v.account[j] == w.account[j]
    decreases |events|
  {
    if events != [] {
      AccountStep(name, w, events[0], j);
      AccountRun(name, Step(name, w, events[0]), events[1..], v, j);
    }
  }

  // ---- When the marked worktree is the one the hook made ----

  /**
   One marking: in world `before` a hook creates a worktree; after `first` it resolves the path, in world `seen`;
   after `second` its marker is written, in world `written`, to the worktree at `at`.
   */
  datatype Marking = Marking(
    before: World, path: string, branch: string, head: string, admin: nat, first: seq<Event>, seen: World,
    token: string, second: seq<Event>, written: World, at: Option<string>)

  ghost predicate Happens(name: Naming, m: Marking) {
    var job := m.before.nextJob;
    var create := HookCreate(m.path, m.branch, m.head, m.admin);
    && Enabled(name, m.before, create) && Runs(name, Step(name, m.before, create), m.first, m.seen)
    && Enabled(name, m.seen, Resolve(job, m.token))
    && Runs(name, Step(name, m.seen, Resolve(job, m.token)), m.second, m.written)
    && Enabled(name, m.written, WriteMarker(job, m.at))
  }

  /** The hook's worktree is at its path when that is resolved, and still somewhere when the marker is written. */
  predicate Steady(m: Marking) {
    Track(m.first, m.path) == Some(m.path) && Track(m.second, m.path).Some?
  }

  function Began(name: Naming, m: Marking): World
    requires Enabled(name, m.before, HookCreate(m.path, m.branch, m.head, m.admin))
  {
    Step(name, m.before, HookCreate(m.path, m.branch, m.head, m.admin))
  }

  function Chose(name: Naming, m: Marking): World
    requires Enabled(name, m.seen, Resolve(m.before.nextJob, m.token))
  {
    Step(name, m.seen, Resolve(m.before.nextJob, m.token))
  }

  lemma MarkingInv(name: Naming, primary: Checkout, events: seq<Event>, m: Marking)
    requires Runs(name, Init(primary), events, m.before) && Happens(name, m)
    ensures Inv(m.before) && Inv(Began(name, m)) && Inv(m.seen) && Inv(Chose(name, m)) && Inv(m.written)
  {
    Reachable(name, primary, events, m.before);
    InvStep(name, m.before, HookCreate(m.path, m.branch, m.head, m.admin));
    InvRun(name, Began(name, m), m.first, m.seen);
    InvStep(name, m.seen, Resolve(m.before.nextJob, m.token));
    InvRun(name, Chose(name, m), m.second, m.written);
  }

  /** Until its marker is written, a hook holds on to the path it was given and the admin directory it resolved. */
  lemma SameJob(name: Naming, m: Marking)
    requires Happens(name, m)
    ensures var job := m.before.nextJob;
      && m.seen.jobs[job] == Made(m.path, m.branch, m.head)
      && m.written.jobs[job]
         == Recorded(Ownership(m.path, m.branch, m.head, m.token), m.seen.trees[m.path].admin)
  {
    JobRun(name, Began(name, m), m.first, m.seen, m.before.nextJob);
    JobRun(name, Chose(name, m), m.second, m.written, m.before.nextJob);
  }

  /** The marker lands in the worktree that the hook made if and only if that worktree was steady. */
  lemma LandsIff(name: Naming, primary: Checkout, events: seq<Event>, m: Marking)
    requires Runs(name, Init(primary), events, m.before) && Happens(name, m)
    ensures (m.at.Some? && m.written.trees[m.at.value].id == m.before.nextTree) <==> Steady(m)
  {
    MarkingInv(name, primary, events, m);
    SameJob(name, m);
    TrackRun(name, Began(name, m), m.first, m.seen, m.path);
    match Track(m.first, m.path)
    case None => GoneRun(name, Chose(name, m), m.second, m.written, m.before.nextTree);
    case Some(p) =>
      TrackRun(name, Chose(name, m), m.second, m.written, p);
      OneAdmin(m.seen, m.written, m.before.nextTree, p, m.path, Track(m.second, p), m.at);
  }

  /**
   A worktree `own` is at `p` in one world and at `q`, if anywhere, in a later one. The worktree at `at` there, which
   has the admin directory that `path` had before, is `own` exactly if `own` was at `path` and is still somewhere.
   */
  lemma OneAdmin(
    w: World, v: World, own: nat, p: string, path: string, q: Option<string>, at: Option<string>)
    requires Apart(w) && Apart(v) && p in w.trees && w.trees[p].id == own && path in w.trees
    requires IsAt(v, own, w.trees[p].admin, q) && AdminAt(v, w.trees[path].admin, at)
    ensures (at.Some? && v.trees[at.value].id == own) <==> (p == path && q.Some?)
  {
  }

  /** If nothing removes or moves the worktree while its hook is marking, the marker lands in it. */
  lemma UndisturbedLands(name: Naming, primary: Checkout, events: seq<Event>, m: Marking)
    requires Runs(name, Init(primary), events, m.before) && Happens(name, m)
    requires Undisturbed(m.first, m.path) && Undisturbed(m.second, m.path)
    ensures m.at.Some? && m.written.trees[m.at.value].id == m.before.nextTree
  {
    UndisturbedStays(m.first, m.path);
    UndisturbedStays(m.second, m.path);
    LandsIff(name, primary, events, m);
  }

  /**
   In every run, a worktree that this marking's record vouches for is the one its hook made if and only if the hook's
   worktree was steady; otherwise the record vouches for a worktree the hook did not make.
   */
  lemma OwnedIff(
    name: Naming, primary: Checkout, events: seq<Event>, m: Marking, after: seq<Event>, w: World, path: string)
    requires Runs(name, Init(primary), events, m.before) && Happens(name, m)
    requires Runs(name, Step(name, m.written, WriteMarker(m.before.nextJob, m.at)), after, w)
    requires OwnedRecord(name, w, path).Some? && OwnedRecord(name, w, path).value.token == m.token
    ensures w.trees[path].id == m.before.nextTree <==> Steady(m)
  {
    var job := m.before.nextJob;
    var marked := Step(name, m.written, WriteMarker(job, m.at));
    MarkingInv(name, primary, events, m);
    InvStep(name, m.written, WriteMarker(job, m.at));
    InvRun(name, marked, after, w);
    SameJob(name, m);
    LandsIff(name, primary, events, m);
    assert JobOk(m.written, job);
    AccountRun(name, marked, after, w, job);
    LandedThere(w, path, job, m.token);
  }

  /** The worktree that a hook's token vouches for is the one its marker landed in. */
  lemma LandedThere(w: World, path: string, job: nat, token: string)
    requires Inv(w) && path in w.trees && w.trees[path].marker.Some? && w.trees[path].marker.value.o.token == token
    requires job in w.account && w.account[job].owns.Some? && w.account[job].owns.value.token == token
    ensures w.account[job].landed == Some(w.trees[path].id)
  {
    assert TreeOk(w, path);
    var hook := w.trees[path].marker.value.hook;
    assert SameToken(w.account[hook], w.account[job]);
  }

  /** A worktree that no hook made is vouched for only by a hook that made another one. */
  lemma HandMadeOnlyByRace(
    name: Naming, primary: Checkout, events: seq<Event>, w: World, e: Event, after: seq<Event>, v: World, path: string)
    requires Runs(name, Init(primary), events, w) && Enabled(name, w, e) && e.HandCreate?
    requires Runs(name, Step(name, w, e), after, v)
    requires path in v.trees && v.trees[path].id == w.nextTree && OwnedRecord(name, v, path).Some?
    ensures var hook := v.trees[path].marker.value.hook; hook in v.account && v.account[hook].made != w.nextTree
  {
    Reachable(name, primary, events, w);
    InvStep(name, w, e);
    InvRun(name, Step(name, w, e), after, v);
    assert TreeOk(v, path);
    HandMadeStays(name, Step(name, w, e), after, v, w.nextTree);
  }

  /** No hook made the worktree. */
  ghost predicate HandMade(w: World, id: nat) {
    id < w.nextTree && forall j :: j in w.account ==> w.account[j].made != id
  }

  lemma HandMadeStep(name: Naming, w: World, e: Event, id: nat)
    requires Enabled(name, w, e) && HandMade(w, id)
    ensures HandMade(Step(name, w, e), id)
  {
  }

  lemma {:induction false} HandMadeStays(name: Naming, w: World, events: seq<Event>, v: World, id: nat)
    requires Runs(name, w, events, v) && HandMade(w, id)
    ensures HandMade(v, id)
    decreases |events|
  {
    if events != [] {
      HandMadeStep(name, w, events[0], id);
      HandMadeStays(name, Step(name, w, events[0]), events[1..], v, id);
    }
  }

  lemma RunsTwo(name: Naming, w: World, a: Event, b: Event)
    requires Enabled(name, w, a) && Enabled(name, Step(name, w, a), b)
    ensures Runs(name, w, [a, b], Step(name, Step(name, w, a), b))
  {
    assert [a, b][1..] == [b] && [b][1..] == [];
  }

  lemma {:induction false} RunsJoin(name: Naming, w: World, a: seq<Event>, u: World, b: seq<Event>, v: World)
    requires Runs(name, w, a, u) && Runs(name, u, b, v)
    ensures Runs(name, w, a + b, v)
    decreases |a|
  {
    if a == [] {
      JoinNothing(b);
    } else {
      TailJoin(a, b);
      RunsJoin(name, Step(name, w, a[0]), a[1..], u, b, v);
    }
  }

  lemma RunsSix(name: Naming, w: World, a: Event, b: Event, c: Event, d: Event, e: Event, f: Event)
    returns (events: seq<Event>, v: World)
    requires Enabled(name, w, a) && Enabled(name, Step(name, w, a), b)
    requires var u := Step(name, Step(name, w, a), b);
      && Enabled(name, u, c) && Enabled(name, Step(name, u, c), d)
      && var t := Step(name, Step(name, u, c), d); Enabled(name, t, e) && Enabled(name, Step(name, t, e), f)
    ensures Runs(name, w, events, v)
    ensures var u := Step(name, Step(name, w, a), b);
      var t := Step(name, Step(name, u, c), d); v == Step(name, Step(name, t, e), f)
  {
    var u := Step(name, Step(name, w, a), b);
    var t := Step(name, Step(name, u, c), d);
    v := Step(name, Step(name, t, e), f);
    RunsTwo(name, w, a, b);
    RunsTwo(name, u, c, d);
    RunsTwo(name, t, e, f);
    RunsJoin(name, w, [a, b], u, [c, d], t);
    RunsJoin(name, w, [a, b] + [c, d], t, [e, f], v);
    events := [a, b] + [c, d] + [e, f];
  }

  /** The race, first window: the worktree is replaced by hand before the hook resolves its path. */
  lemma RaceBeforeResolving(
    name: Naming, primary: Checkout, path: string, branch: string, head: string, token: string)
    returns (events: seq<Event>, w: World)
    requires path != primary.path && token != ""
    ensures Runs(name, Init(primary), events, w) && path in w.trees
    ensures HookOwned(name, w, path, branch, head) && HandMade(w, w.trees[path].id)
  {
    events, w := RunsSix(
      name, Init(primary), HookCreate(path, branch, head, 0), GitRemove(path), HandCreate(path, Some(branch), head, 0),
      Resolve(0, token), WriteRecord(0), WriteMarker(0, Some(path)));
  }

  /** The race, second window: it is replaced between the two writes, and Git gives the admin directory its old name. */
  lemma RaceBetweenWrites(
    name: Naming, primary: Checkout, path: string, branch: string, head: string, token: string)
    returns (events: seq<Event>, w: World)
    requires path != primary.path && token != ""
    ensures Runs(name, Init(primary), events, w) && path in w.trees
    ensures HookOwned(name, w, path, branch, head) && HandMade(w, w.trees[path].id)
  {
    events, w := RunsSix(
      name, Init(primary), HookCreate(path, branch, head, 0), Resolve(0, token), WriteRecord(0), GitRemove(path),
      HandCreate(path, Some(branch), head, 0), WriteMarker(0, Some(path)));
  }

  // ---- Removal ----

  /** The last name of a path is what follows its last slash. */
  lemma {:induction false} LastNameExactly(dir: string, name: string)
    requires '/' !in name
    ensures LastName(dir + "/" + name) == name
  {
    var path := dir + "/" + name;
    if name == "" {
      assert path[|path| - 1] == '/';
    } else {
      var init := name[..|name| - 1];
      LastNameExactly(dir, init);
      assert path[..|path| - 1] == dir + "/" + init && path[|path| - 1] == name[|name| - 1];
      assert name == init + [name[|name| - 1]];
    }
  }

  /** Every absolute path is a directory, a slash and its last name. */
  lemma {:induction false} LastNameSplits(path: string) returns (dir: string)
    requires path != "" && path[0] == '/'
    ensures path == dir + "/" + LastName(path)
    decreases |path|
  {
    var init := path[..|path| - 1];
    if path[|path| - 1] == '/' {
      dir := init;
      assert path == init + "/";
    } else {
      dir := LastNameSplits(init);
      assert path == init + [path[|path| - 1]];
      Group2(dir + "/", LastName(init), [path[|path| - 1]]);
    }
  }

  /** A checkout answers to a name exactly if its directory has that name or it is on that branch. */
  lemma AnswersExactly(path: string, branch: Option<string>, wanted: string)
    requires path != "" && path[0] == '/' && '/' !in wanted
    ensures AnswersTo(path, branch, wanted) <==>
      wanted != "" && ((exists dir: string :: path == dir + "/" + wanted) || branch == Some(wanted))
  {
    forall dir: string | path == dir + "/" + wanted ensures LastName(path) == wanted {
      LastNameExactly(dir, wanted);
    }
    if LastName(path) == wanted { var dir := LastNameSplits(path); }
  }

  /** While the primary checkout is on a branch with the path's last name, nothing is removed for that path. */
  lemma PrimaryBlocks(name: Naming, w: World, job: nat, found: string)
    requires job in w.jobs && w.jobs[job].Removing?
    ensures !Enabled(name, Step(name, w, SwitchPrimary(Some(LastName(w.jobs[job].path)))), HookRemove(job, found))
  {
  }

  /**
   The hook checks the records of the worktree at a path and then gives the owner the path's last name. What goes is the
   worktree that means by then. It is the one whose records were checked if and only if the events in between took that
   one to where the removal finds it; and a worktree at the path checked is never passed over for another.
   */
  lemma RemovesCheckedIff(
    name: Naming, primary: Checkout, events: seq<Event>, w: World, path: string, between: seq<Event>, v: World,
    at: string)
    requires Runs(name, Init(primary), events, w) && Enabled(name, w, CheckRemove(path))
    requires Runs(name, Step(name, w, CheckRemove(path)), between, v) && Enabled(name, v, HookRemove(w.nextJob, at))
    ensures Step(name, v, HookRemove(w.nextJob, at)).trees == v.trees - {at}
    ensures v.trees[at].id == w.trees[path].id <==> Track(between, path) == Some(at)
    ensures path in v.trees ==> at == path
    ensures var m := w.trees[path].marker.value;
      m.hook in w.account && w.account[m.hook].landed == Some(w.trees[path].id) && m.o.path == path
  {
    var checked := Step(name, w, CheckRemove(path));
    Reachable(name, primary, events, w);
    OwnedExactly(name, primary, events, w, path);
    InvStep(name, w, CheckRemove(path));
    InvRun(name, checked, between, v);
    TrackRun(name, checked, between, v, path);
    JobRun(name, checked, between, v, w.nextJob);
  }

  /** If nothing removes or moves the checked worktree in between, it is the one that goes. */
  lemma UndisturbedRemoval(
    name: Naming, primary: Checkout, events: seq<Event>, w: World, path: string, between: seq<Event>, v: World,
    at: string)
    requires Runs(name, Init(primary), events, w) && Enabled(name, w, CheckRemove(path))
    requires Runs(name, Step(name, w, CheckRemove(path)), between, v) && Enabled(name, v, HookRemove(w.nextJob, at))
    requires Undisturbed(between, path)
    ensures at == path && v.trees[at].id == w.trees[path].id
  {
    var checked := Step(name, w, CheckRemove(path));
    RemovesCheckedIff(name, primary, events, w, path, between, v, at);
    UndisturbedStays(between, path);
    Reachable(name, primary, events, w);
    InvStep(name, w, CheckRemove(path));
    TrackRun(name, checked, between, v, path);
  }

  /** A hook makes, marks and then checks a worktree, which is removed by hand before the hook removes it. */
  lemma CheckedThenGone(
    name: Naming, primary: Checkout, path: string, branch: string, head: string, token: string)
    returns (events: seq<Event>, w: World)
    requires path != primary.path && token != ""
    ensures Runs(name, Init(primary), events, w)
    ensures w.primary == primary && w.trees == map[] && w.jobs == map[1 := Removing(path)]
  {
    events, w := RunsSix(
      name, Init(primary), HookCreate(path, branch, head, 0), Resolve(0, token), WriteRecord(0),
      WriteMarker(0, Some(path)), CheckRemove(path), GitRemove(path));
  }

  /** Otherwise another can go: a worktree made by hand elsewhere, with no record at all but the same last name. */
  lemma RemovesAnother(
    name: Naming, primary: Checkout, path: string, branch: string, head: string, token: string, other: string)
    returns (events: seq<Event>, w: World)
    requires path != primary.path && other != primary.path && token != ""
    requires path != other && LastName(other) == LastName(path) != ""
    requires !AnswersTo(primary.path, primary.branch, LastName(path))
    ensures Runs(name, Init(primary), events, w) && w.jobs == map[1 := Removing(path)]
    ensures other in w.trees && HandMade(w, w.trees[other].id) && w.trees[other].marker.None?
    ensures Enabled(name, w, HookRemove(1, other)) && other !in Step(name, w, HookRemove(1, other)).trees
  {
    var u;
    events, u := CheckedThenGone(name, primary, path, branch, head, token);
    Reachable(name, primary, events, u);
    var last := HandCreate(other, None, head, 0);
    w := Step(name, u, last);
    assert [last][1..] == [];
    RunsJoin(name, Init(primary), events, u, [last], w);
    events := events + [last];
  }

  // ---- How long ownership lasts ----

  /** Whether an event concerns the worktree at `path` or the file of its state-side record. */
  predicate Touches(name: Naming, w: World, e: Event, path: string)
    requires Enabled(name, w, e)
  {
    match e
    case WriteRecord(job) => name(w.jobs[job].o.path) == name(path)
    case WriteMarker(_, at) => at == Some(path)
    case Forget(job) => name(w.jobs[job].path) == name(path)
    case LoseRecord(file) => file == name(path)
    case LoseMarker(p) => p == path
    case _ => Follow(e, path) != Some(path)
  }

  ghost predicate Untouched(name: Naming, w: World, events: seq<Event>, v: World, path: string)
    requires Runs(name, w, events, v)
    decreases |events|
  {
    events != [] ==>
      !Touches(name, w, events[0], path) && Untouched(name, Step(name, w, events[0]), events[1..], v, path)
  }

  lemma OwnedStep(name: Naming, w: World, e: Event, path: string)
    requires Enabled(name, w, e) && OwnedRecord(name, w, path).Some? && !Touches(name, w, e, path)
    ensures OwnedRecord(name, Step(name, w, e), path) == OwnedRecord(name, w, path)
  {
  }

  /** Ownership lasts through everything that touches neither the worktree nor its record file. */
  lemma {:induction false} OwnedLasts(name: Naming, w: World, events: seq<Event>, v: World, path: string)
    requires Runs(name, w, events, v) && OwnedRecord(name, w, path).Some? && Untouched(name, w, events, v, path)
    ensures OwnedRecord(name, v, path) == OwnedRecord(name, w, path)
    decreases |events|
  {
    if events != [] {
      OwnedStep(name, w, events[0], path);
      OwnedLasts(name, Step(name, w, events[0]), events[1..], v, path);
    }
  }

  /**
   And it ends when either is lost, the worktree is removed or moved, even to a path whose record has the same file; a
   worktree that moved on to another branch or HEAD does not read as owned as it stands.
   */
  lemma Disowned(name: Naming, w: World, e: Event, path: string)
    requires Enabled(name, w, e) && OwnedRecord(name, w, path).Some?
    ensures var v := Step(name, w, e);
      match e
      case GitRemove(p) => p == path ==> OwnedRecord(name, v, path).None?
      case GitMove(p, to) => p == path ==> OwnedRecord(name, v, path).None? && OwnedRecord(name, v, to).None?
      case LoseMarker(p) => p == path ==> OwnedRecord(name, v, path).None?
      case LoseRecord(file) => file == name(path) ==> OwnedRecord(name, v, path).None?
      case Advance(p, on, head) =>
        p == path ==>
          && v.trees[path].branch == on && v.trees[path].head == head
          && (on.Some? ==>
                (HookOwned(name, v, path, on.value, v.trees[path].head) <==>
                   var o := OwnedRecord(name, w, path).value; o.branch == on.value && o.head == head))
      case _ => true
  {
  }

  // ---- Reuse ----

  /** One line of the owner's worktree listing, the primary checkout first. */
  datatype Entry = Entry(path: Option<string>, branch: Option<string>, head: string, live: bool, clean: bool)

  datatype Refusal = PathUnknown | InPrimary | NotWhereMade | WriterLive | NotClean | NotOwned
  datatype Reuse = Found(path: string) | NoHolder | Refused(why: Refusal)

  function Ref(branch: string): string {
    "refs/heads/" + branch
  }

  function Dashed(s: string): string {
    if s == "" then "" else [if s[0] == '/' then '-' else s[0]] + Dashed(s[1..])
  }

  /** Where a worktree for a branch is made. */
  function MadeAt(primary: string, branch: string): string {
    primary + "/.worktrees/" + Dashed(branch)
  }

  /** In `.worktrees` of the primary checkout, under the branch's name with a dash for every slash. */
  lemma {:induction false} MadeAtExactly(primary: string, branch: string)
    ensures MadeAt(primary, branch) == primary + "/.worktrees/" + Dashed(branch) && |Dashed(branch)| == |branch|
    ensures forall i :: 0 <= i < |branch| ==> Dashed(branch)[i] == if branch[i] == '/' then '-' else branch[i]
  {
    if branch != "" { MadeAtExactly(primary, branch[1..]); }
  }

  /** The worktree a listing entry describes may be handed out again for `branch`. */
  predicate Qualifies(name: Naming, w: World, primary: Option<string>, e: Entry, branch: string) {
    && primary.Some? && e.path.Some? && e.path.value != primary.value
    && e.path.value == MadeAt(primary.value, branch) && !e.live && e.clean
    && HookOwned(name, w, e.path.value, branch, e.head)
  }

  method Reusable(name: Naming, w: World, list: seq<Entry>, branch: string) returns (r: Reuse, ghost holder: nat)
    ensures r == NoHolder <==> forall i :: 0 <= i < |list| ==> list[i].branch != Some("refs/heads/" + branch)
    // Otherwise the first entry that holds the branch decides.
    ensures r != NoHolder ==>
      && holder < |list| && list[holder].branch == Some("refs/heads/" + branch)
      && (forall i :: 0 <= i < holder ==> list[i].branch != Some("refs/heads/" + branch))
      && (r.Found? <==> Qualifies(name, w, list[0].path, list[holder], branch))
      && (r.Found? ==> list[holder].path == Some(r.path))
    // It is handed out, or refused for the first of these reasons that holds.
    ensures r != NoHolder ==>
      var (primary, e) := (list[0].path, list[holder]);
      r == if primary.None? || e.path.None? then Refused(PathUnknown)
           else if e.path == primary then Refused(InPrimary)
           else if e.path.value != MadeAt(primary.value, branch) then Refused(NotWhereMade)
           else if e.live then Refused(WriterLive)
           else if !e.clean then Refused(NotClean)
           else if !HookOwned(name, w, e.path.value, branch, e.head) then Refused(NotOwned)
           else Found(e.path.value)
  {
    holder := 0;
    var wanted := Ref(branch);
    var i := 0;
    while i < |list| && list[i].branch != Some(wanted)
      invariant 0 <= i <= |list|
      invariant forall k :: 0 <= k < i ==> list[k].branch != Some(wanted)
    {
      i := i + 1;
    }
    if i == |list| { return NoHolder, 0; }
    holder := i;
    var e, primary := list[i], list[0].path;
    if primary.None? || e.path.None? { return Refused(PathUnknown), holder; }
    var path := e.path.value;
    if path == primary.value { return Refused(InPrimary), holder; }
    if path != MadeAt(primary.value, branch) { return Refused(NotWhereMade), holder; }
    if e.live { return Refused(WriterLive), holder; }
    if !e.clean { return Refused(NotClean), holder; }
    if !HookOwned(name, w, path, branch, e.head) { return Refused(NotOwned), holder; }
    return Found(path), holder;
  }

  /** A detached worktree is listed without a branch. */
  function ListedBranch(branch: Option<string>): Option<string> {
    if branch.None? then None else Some(Ref(branch.value))
  }

  /** A listing of the world as it is: the primary checkout, then linked worktrees with their branch and HEAD. */
  ghost predicate Lists(w: World, list: seq<Entry>) {
    && list != [] && list[0].path == Some(w.primary.path)
    && forall i :: 0 < i < |list| && list[i].path.Some? ==>
      && list[i].path.value in w.trees
      && list[i].branch == ListedBranch(w.trees[list[i].path.value].branch)
      && list[i].head == w.trees[list[i].path.value].head
  }

  lemma RefInjective(a: string, b: string)
    requires Ref(a) == Ref(b)
    ensures a == b
  {
    assert a == Ref(a)[|Ref("")|..];
    assert b == Ref(b)[|Ref("")|..];
  }

  /**
   In every run, what is reused is never the primary checkout, and a hook's marker landed in it for this path, for the
   branch and for the HEAD that was listed. It is the worktree that was listed if and only if the events between the
   listing and the reading of the records left that one there.
   */
  lemma ReuseIsMarked(
    name: Naming, primary: Checkout, events: seq<Event>, listed: World, between: seq<Event>, w: World, list: seq<Entry>,
    i: nat, branch: string)
    requires Runs(name, Init(primary), events, listed) && Lists(listed, list) && Runs(name, listed, between, w)
    requires i < |list| && list[i].branch == Some(Ref(branch)) && Qualifies(name, w, list[0].path, list[i], branch)
    ensures var path := list[i].path.value;
      && path in w.trees && path != w.primary.path && path in listed.trees && listed.trees[path].branch == Some(branch)
      && var m := w.trees[path].marker.value;
         && m.o == Ownership(path, branch, list[i].head, m.o.token)
         && m.hook in w.account && w.account[m.hook].landed == Some(w.trees[path].id)
         && (w.trees[path].id == listed.trees[path].id <==> Track(between, path) == Some(path))
  {
    var path := list[i].path.value;
    RefInjective(branch, listed.trees[path].branch.value);
    Reachable(name, primary, events, listed);
    InvRun(name, listed, between, w);
    TrackRun(name, listed, between, w, path);
    assert TreeOk(w, path);
  }

  // ---- The hook's own writes, when nothing comes between them ----

  /** How far marking gets: not at all, the state-side record only, or both. */
  datatype Progress = Nothing | RecordOnly | Both

  function RecordedAlone(name: Naming, w: World, job: nat, token: string): World
    requires job in w.jobs && w.jobs[job].Made? && w.jobs[job].path in w.trees && job in w.account
  {
    var j := w.jobs[job];
    var o, admin := Ownership(j.path, j.branch, j.head, token), w.trees[j.path].admin;
    Recording(Resolving(w, job, o, admin), job, o, admin, name(j.path))
  }

  /** The writes one after the other are a run. */
  lemma MarkingAlone(name: Naming, w: World, job: nat, token: string)
    requires job in w.jobs && w.jobs[job].Made? && w.jobs[job].path in w.trees && job in w.account && Fresh(w, token)
    ensures var j, v := w.jobs[job], RecordedAlone(name, w, job, token);
      && Runs(name, w, [Resolve(job, token), WriteRecord(job)], v)
      && Runs(name, w, [Resolve(job, token), WriteRecord(job)] + [WriteMarker(job, Some(j.path))],
              Landing(v, job, Ownership(j.path, j.branch, j.head, token), j.path))
  {
    var j, v := w.jobs[job], RecordedAlone(name, w, job, token);
    var last := WriteMarker(job, Some(j.path));
    RunsTwo(name, w, Resolve(job, token), WriteRecord(job));
    assert [last][1..] == [];
    RunsJoin(name, w, [Resolve(job, token), WriteRecord(job)], v, [last], Step(name, v, last));
  }

  /** Nothing changed for other worktrees whose record has another file. */
  ghost predicate OthersKept(name: Naming, w: World, v: World, path: string) {
    forall q :: q != path && name(q) != name(path) ==> OwnedRecord(name, v, q) == OwnedRecord(name, w, q)
  }

  /** What both records and the owner's reading of names ask before a worktree is removed. */
  predicate Removable(name: Naming, w: World, path: string) {
    OwnedRecord(name, w, path).Some? && Named(w, LastName(path), path)
  }

  /** When nothing comes between, the removal is a run of the steps. */
  lemma RemovalAlone(name: Naming, w: World, path: string) returns (events: seq<Event>, v: World)
    requires Removable(name, w, path)
    ensures Runs(name, w, events, v) && v.trees == w.trees - {path} && v.records == w.records - {name(path)}
  {
    var last := Forget(w.nextJob);
    RunsTwo(name, w, CheckRemove(path), HookRemove(w.nextJob, path));
    var u := Step(name, Step(name, w, CheckRemove(path)), HookRemove(w.nextJob, path));
    v := Step(name, u, last);
    assert [last][1..] == [];
    RunsJoin(name, w, [CheckRemove(path), HookRemove(w.nextJob, path)], u, [last], v);
    events := [CheckRemove(path), HookRemove(w.nextJob, path)] + [last];
  }

  lemma OthersAfterRemoval(name: Naming, w: World, path: string)
    ensures var gone := Retreed(w, w.trees - {path});
      && (forall q :: name(q) != name(path) ==> OwnedRecord(name, gone, q) == OwnedRecord(name, w, q))
      && forall q :: name(q) != name(path) ==> OwnedRecord(name, Lost(gone, name(path)), q) == OwnedRecord(name, w, q)
  {
  }

  class Hook {
    var world: World
    var others: set<string>  // directories that are neither the primary checkout nor a worktree

    constructor (world: World, others: set<string>)
      ensures this.world == world && this.others == others
    {
      this.world, this.others := world, others;
    }

    predicate Exists(path: string)
      reads this
    {
      path in world.trees || path == world.primary.path || path in others
    }

    /** Resolves the path again, then writes the state-side record and the marker; `progress` says what succeeds. */
    method MarkOwned(name: Naming, job: nat, token: string, progress: Progress)
      returns (ok: bool, ghost events: seq<Event>)
      requires job in world.jobs && world.jobs[job].Made? && job in world.account && Fresh(world, token)
      modifies this`world
      ensures Runs(name, old(world), events, world)
      ensures var j := old(world).jobs[job];
        && (ok <==> j.path in old(world).trees && progress == Both)
        && (ok ==> OwnedRecord(name, world, j.path) == Some(Ownership(j.path, j.branch, j.head, token)))
        && (!ok ==> world.trees == old(world).trees)
        && (j.path !in old(world).trees || progress == Nothing ==> world.records == old(world).records)
        && OthersKept(name, old(world), world, j.path)
    {
      var j := world.jobs[job];
      events := [];
      if j.path !in world.trees || progress == Nothing { return false, events; }
      var o, admin := Ownership(j.path, j.branch, j.head, token), world.trees[j.path].admin;
      MarkingAlone(name, world, job, token);
      events := [Resolve(job, token), WriteRecord(job)];
      world := Resolving(world, job, o, admin);
      world := Recording(world, job, o, admin, name(j.path));
      if progress == RecordOnly { return false, events; }
      world := Landing(world, job, o, j.path);
      return true, events + [WriteMarker(job, Some(j.path))];
    }

    /** Afterwards nothing vouches for the path; every path with another record file is as before. */
    method Forget(name: Naming, path: string)
      modifies this`world
      ensures OwnedRecord(name, world, path) == None
      ensures world == old(world).(records := old(world).records - {name(path)})
      ensures forall q :: name(q) != name(path) ==> OwnedRecord(name, world, q) == OwnedRecord(name, old(world), q)
    {
      world := Lost(world, name(path));
    }

    /**
     A path that does not exist is fine. Anything else has to be a linked worktree with both records whose last name
     means it and nothing else; then the owner removes or keeps it. It is forgotten only once the path is gone.
     */
    method Remove(name: Naming, path: string, readable: bool, kept: bool)
      returns (ok: bool, ghost events: seq<Event>, ghost v: World)
      modifies this`world
      ensures ok <==>
        && readable && path !in others
        && ((path !in old(world).trees && path != old(world).primary.path)
            || (Removable(name, old(world), path) && !kept))
      ensures world.trees ==
        if readable && Removable(name, old(world), path) && !kept then old(world).trees - {path} else old(world).trees
      ensures world.records ==
        if ok && old(Exists(path)) then old(world).records - {name(path)} else old(world).records
      ensures world == old(world).(trees := world.trees, records := world.records)
      // A removal is a run of the steps.
      ensures ok && old(Exists(path)) ==>
        Runs(name, old(world), events, v) && v.trees == world.trees && v.records == world.records
      ensures forall q :: name(q) != name(path) ==> OwnedRecord(name, world, q) == OwnedRecord(name, old(world), q)
    {
      events, v := [], world;
      if !readable { return false, events, v; }
      if !Exists(path) { return true, events, v; }
      if path !in world.trees { return false, events, v; }
      if OwnedRecord(name, world, path).None? { return false, events, v; }
      // The owner finds no single worktree for the name, or the primary checkout answers to it.
      if !Named(world, LastName(path), path) { return false, events, v; }
      events, v := RemovalAlone(name, world, path);
      OthersAfterRemoval(name, world, path);
      if !kept { world := Retreed(world, world.trees - {path}); }
      if Exists(path) { return false, events, v; }
      Forget(name, path);
      return true, events, v;
    }
  }
}
