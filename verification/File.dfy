/** The `file` module: bring a path into a requested state, mode and ownership. */
module File {
  import opened Prelude
  import opened FileSystem
  import Mode
  import ModeText

  datatype File = File(path: Path, state: string, mode: Option<string>, owner: string, group: string,
                       recurse: bool, follow: Option<bool>, src: string)

  const ABSENT := "absent"
  const DIRECTORY := "directory"
  const FILE := "file"
  const LINK := "link"
  const TOUCH := "touch"

  /** What `Apply` returns; `report` is the node the final stat saw. */
  datatype Outcome = Success(changed: bool, skipped: bool, report: Option<Node>) | Failure

  datatype Run = Run(fs: Tree, outcome: Outcome)

  // ---------------------------------------------------------------- mode and owner

  /** The text of a mode, empty when the task gives none. */
  function ModeOf(f: File): string {
    if f.mode.Some? then f.mode.value else ""
  }

  predicate Symbolic(mode: string) {
    mode != "" && ModeText.ParseUint(mode).None?
  }

  /** The mode asked of a node whose permissions are `current`; `NO_MODE` for none, `None` for a bad one. */
  function NodeDesired(mode: string, current: Mode.Perm): Option<Mode.FileMode> {
    if mode == "" then Some(Mode.NO_MODE)
    else
      match ModeText.ParseUint(mode)
      case Some(n) => Some(Mode.FromNumber(n))
      case None =>
        match Mode.Evaluate(mode, current)
        case Some(m) => Some(Mode.FileMode(0, m))
        case None => None
  }

  /** The same for a path: a symbolic mode starts from where the path leads. */
  function Desired(host: Host, fs: Tree, p: Path, mode: string): Option<Mode.FileMode> {
    if !Symbolic(mode) then NodeDesired(mode, {})
    else if p == [] then None
    else
      match Resolve(host, fs, p)
      case None => None
      case Some(q) => NodeDesired(mode, fs[q].meta.mode)
  }

  predicate OwnerDiffers(m: Meta, uid: Option<Id>, gid: Option<Id>) {
    (uid.Some? && uid.value != m.uid) || (gid.Some? && gid.value != m.gid)
  }

  /** The comparison at the heart of the check; a desired mode of 0 is not compared. */
  predicate Differs(m: Meta, desired: Mode.FileMode, uid: Option<Id>, gid: Option<Id>) {
    (desired != Mode.NO_MODE && desired != Mode.FileMode(0, m.mode)) || OwnerDiffers(m, uid, gid)
  }

  /** `needsModeOrOwnershipChange`: what the path itself has against what is asked. */
  function Needs(host: Host, fs: Tree, p: Path, mode: string, uid: Option<Id>, gid: Option<Id>): Option<bool> {
    if p !in fs then None
    else
      match Desired(host, fs, p, mode)
      case None => None
      case Some(d) => Some(Differs(fs[p].meta, d, uid, gid))
  }

  /** `ApplyModeAndIDs`: change the mode, then the owner, of where the path leads. */
  function Applied(host: Host, fs: Tree, p: Path, mode: string, uid: Option<Id>, gid: Option<Id>): Option<Tree> {
    if mode == "" then Chown(host, fs, p, uid, gid)
    else
      match Desired(host, fs, p, mode)
      case None => None
      case Some(d) =>
        match Chmod(host, fs, p, d)
        case None => None
        case Some(gs) => Chown(host, gs, p, uid, gid)
  }

  method NeedsModeOrOwnershipChange(fs: Machine, p: Path, mode: string, uid: Option<Id>, gid: Option<Id>)
    returns (r: Option<bool>)
    ensures r == Needs(fs.host, fs.fs, p, mode, uid, gid)
  {
    if p !in fs.fs { return None; }
    var meta := fs.fs[p].meta;
    var desired := Mode.NO_MODE;
    if mode != "" {
      var num := ModeText.ParseUint(mode);
      if num.Some? {
        desired := Mode.FromNumber(num.value);
      } else {
        var stat := Resolve(fs.host, fs.fs, p);
        if p == [] || stat.None? { return None; }
        var m := Mode.NewModeFromSpec(fs.fs[stat.value].meta.mode, mode);
        if m.None? { return None; }
        desired := Mode.FileMode(0, m.value);
      }
    }
    if desired != Mode.NO_MODE && Mode.FileMode(0, meta.mode) != desired { return Some(true); }
    if uid.Some? && meta.uid != uid.value { return Some(true); }
    if gid.Some? && meta.gid != gid.value { return Some(true); }
    return Some(false);
  }

  method ApplyModeAndIDs(fs: Machine, p: Path, mode: string, uid: Option<Id>, gid: Option<Id>) returns (r: Status)
    modifies fs
    ensures match Applied(fs.host, old(fs.fs), p, mode, uid, gid) {
              case Some(gs) => r.Done? && fs.fs == gs
              case None => r.Fail? && fs.fs == old(fs.fs) }
  {
    if mode != "" {
      var num := ModeText.ParseUint(mode);
      if num.Some? {
        r := fs.ChmodPath(p, Mode.FromNumber(num.value));
      } else {
        var stat := Resolve(fs.host, fs.fs, p);
        if p == [] || stat.None? { return Fail; }
        var m := Mode.NewModeFromSpec(fs.fs[stat.value].meta.mode, mode);
        if m.None? { return Fail; }
        r := fs.ChmodPath(p, Mode.FileMode(0, m.value));
      }
      if r.Fail? { return Fail; }
      ChownAfterChmod(fs.host, old(fs.fs), fs.fs, p);
    }
    r := fs.ChownPath(p, uid, gid);
  }

  /** A change of mode leaves every path leading where it led. */
  lemma ChownAfterChmod(host: Host, fs: Tree, gs: Tree, p: Path)
    requires SameShape(fs, gs)
    ensures Resolve(host, fs, p) == Resolve(host, gs, p)
  {
    SameShapeFollow(host, fs, gs, p, MAX_LINKS);
  }

  // ---------------------------------------------------------------- one path, or a whole tree

  /** The result of check-then-apply. */
  datatype Fixed = Fixed(fs: Tree, changed: bool) | Unfixable

  function Fix(host: Host, fs: Tree, p: Path, mode: string, uid: Option<Id>, gid: Option<Id>): Fixed {
    match Needs(host, fs, p, mode, uid, gid)
    case None => Unfixable
    case Some(false) => Fixed(fs, false)
    case Some(true) =>
      match Applied(host, fs, p, mode, uid, gid)
      case None => Unfixable
      case Some(gs) => Fixed(gs, true)
  }

  /** What the recursive walk compares a node with: links have no mode of their own. */
  function NodeGoal(n: Node, mode: string): Mode.FileMode {
    if n.kind.Link? || NodeDesired(mode, n.meta.mode).None? then Mode.NO_MODE
    else NodeDesired(mode, n.meta.mode).value
  }

  predicate NodeNeeds(n: Node, mode: string, uid: Option<Id>, gid: Option<Id>) {
    Differs(n.meta, NodeGoal(n, mode), uid, gid)
  }

  /** A node after the recursive walk has visited it. */
  function NodeFixed(n: Node, mode: string, uid: Option<Id>, gid: Option<Id>): Node {
    if !NodeNeeds(n, mode, uid, gid) then n
    else
      var m := if n.kind.Link? || mode == "" then n.meta else n.meta.(mode := NodeGoal(n, mode).perm);
      Node(n.kind, Owned(m, uid, gid))
  }

  function FixTree(fs: Tree, root: Path, mode: string, uid: Option<Id>, gid: Option<Id>): Tree {
    map p | p in fs :: if root <= p then NodeFixed(fs[p], mode, uid, gid) else fs[p]
  }

  predicate TreeNeeds(fs: Tree, root: Path, mode: string, uid: Option<Id>, gid: Option<Id>) {
    exists p :: p in fs && root <= p && NodeNeeds(fs[p], mode, uid, gid)
  }

  /** The walk stops with an error at its root, which is a directory, or not at all. */
  predicate WalkFails(fs: Tree, root: Path, mode: string)
    requires root in fs
  {
    !fs[root].kind.Link? && Symbolic(mode) && (Mode.Parse(mode).None? || root == [])
  }

  /** Visiting one path of the walk. */
  method Visit(fs: Machine, p: Path, mode: string, uid: Option<Id>, gid: Option<Id>) returns (r: Option<bool>)
    requires p in fs.fs
    modifies fs
    ensures r.None? <==> WalkFails(old(fs.fs), p, mode)
    ensures r.None? ==> fs.fs == old(fs.fs)
    ensures r.Some? ==>
              && r.value == NodeNeeds(old(fs.fs)[p], mode, uid, gid)
              && fs.fs == old(fs.fs)[p := NodeFixed(old(fs.fs)[p], mode, uid, gid)]
  {
    if fs.fs[p].kind.Link? {
      var needs := NeedsModeOrOwnershipChange(fs, p, "", uid, gid);
      if needs.value {
        var s := fs.LchownPath(p, uid, gid);
      }
      return needs;
    } else {
      var needs := NeedsModeOrOwnershipChange(fs, p, mode, uid, gid);
      if needs == Some(true) {
        var s := ApplyModeAndIDs(fs, p, mode, uid, gid);
      }
      return needs;
    }
  }

  /**
   `filepath.WalkDir` with the callback of a recursive directory task, in any order that reaches a directory
   before its content.
  */
  method FixRecursively(fs: Machine, root: Path, mode: string, uid: Option<Id>, gid: Option<Id>)
    returns (r: Option<bool>)
    requires Valid(fs.fs) && root in fs.fs
    modifies fs
    ensures r.None? <==> WalkFails(old(fs.fs), root, mode)
    ensures r.None? ==> fs.fs == old(fs.fs)
    ensures r.Some? ==>
              && r.value == TreeNeeds(old(fs.fs), root, mode, uid, gid)
              && fs.fs == FixTree(old(fs.fs), root, mode, uid, gid)
  {
    ghost var before := fs.fs;
    var changed := false;
    var todo := Subtree(fs.fs, root);
    ghost var done := {};
    FixNone(before, mode, uid, gid);
    while todo != {}
      invariant done + todo == Subtree(before, root) && done !! todo
      invariant done != {} ==> !WalkFails(before, root, mode)
      invariant fs.fs == FixSome(before, done, mode, uid, gid)
      invariant changed <==> SomeNeeds(before, done, mode, uid, gid)
    {
      ghost var some := NextExists(todo);
      var p :| Next(todo, p);
      RootGoesFirst(before, root, todo, p, mode);
      FixOneMore(before, done, p, mode, uid, gid);
      var needs := Visit(fs, p, mode, uid, gid);
      if needs.None? { return None; }
      changed := changed || needs.value;
      todo, done := todo - {p}, done + {p};
    }
    FixAll(before, root, mode, uid, gid);
    return Some(changed);
  }

  /** The tree once the walk has visited `done`. */
  ghost function FixSome(fs: Tree, done: set<Path>, mode: string, uid: Option<Id>, gid: Option<Id>): Tree {
    map p | p in fs :: if p in done then NodeFixed(fs[p], mode, uid, gid) else fs[p]
  }

  ghost predicate SomeNeeds(fs: Tree, done: set<Path>, mode: string, uid: Option<Id>, gid: Option<Id>) {
    exists p :: p in fs && p in done && NodeNeeds(fs[p], mode, uid, gid)
  }

  lemma FixNone(fs: Tree, mode: string, uid: Option<Id>, gid: Option<Id>)
    ensures FixSome(fs, {}, mode, uid, gid) == fs && !SomeNeeds(fs, {}, mode, uid, gid)
  {}

  lemma FixAll(fs: Tree, root: Path, mode: string, uid: Option<Id>, gid: Option<Id>)
    ensures FixSome(fs, Subtree(fs, root), mode, uid, gid) == FixTree(fs, root, mode, uid, gid)
    ensures SomeNeeds(fs, Subtree(fs, root), mode, uid, gid) <==> TreeNeeds(fs, root, mode, uid, gid)
    ensures root in fs ==> Subtree(fs, root) != {}
  {
    if root in fs { assert root in Subtree(fs, root); }
  }

  lemma FixOneMore(fs: Tree, done: set<Path>, p: Path, mode: string, uid: Option<Id>, gid: Option<Id>)
    requires p in fs && p !in done
    ensures FixSome(fs, done, mode, uid, gid)[p] == fs[p]
    ensures FixSome(fs, done + {p}, mode, uid, gid)
        == FixSome(fs, done, mode, uid, gid)[p := NodeFixed(fs[p], mode, uid, gid)]
    ensures SomeNeeds(fs, done + {p}, mode, uid, gid) <==>
        SomeNeeds(fs, done, mode, uid, gid) || NodeNeeds(fs[p], mode, uid, gid)
  {}

  lemma RootGoesFirst(fs: Tree, root: Path, todo: set<Path>, p: Path, mode: string)
    requires Valid(fs) && root in fs && todo <= Subtree(fs, root) && Next(todo, p)
    ensures root in todo ==> p == root
    ensures WalkFails(fs, p, mode) ==> WalkFails(fs, root, mode)
  {
    if root != p {
      AncestorsAreDirs(fs, root, p);
    }
  }

  // ---------------------------------------------------------------- the task

  /** `GetUid` and `GetGid`: nothing asked, an account found, or (`None`) an unknown one. */
  function Account(name: string, find: string -> Option<Id>): Option<Option<Id>> {
    if name == "" then Some(None)
    else
      match find(name)
      case None => None
      case Some(id) => Some(Some(id))
  }

  /** The state acted on; it differs from the one asked for only when that is empty and the path free. */
  function ActualState(f: File, exists_: bool): string {
    if f.state != "" || exists_ then f.state else if f.recurse then DIRECTORY else FILE
  }

  function Symlink(host: Host, fs: Tree, src: string, p: Path): Option<Tree> {
    if src == "" then None else Create(fs, p, host.NewLink(src))
  }

  /** The first half of `state=link`: make the link, or replace one with another target. */
  function Linked(host: Host, fs: Tree, f: File): (Tree, Option<bool>) {
    if f.path !in fs then
      match Symlink(host, fs, f.src, f.path)
      case None => (fs, None)
      case Some(gs) => (gs, Some(true))
    else if !fs[f.path].kind.Link? then (fs, None)
    else if fs[f.path].kind.target == f.src then (fs, Some(false))
    else
      match Symlink(host, fs - {f.path}, f.src, f.path)
      case None => (fs - {f.path}, None)
      case Some(gs) => (gs, Some(true))
  }

  function Finish(fs: Tree, p: Path, changed: bool): Run {
    if p in fs then Run(fs, Success(changed, false, Some(fs[p]))) else Run(fs, Failure)
  }

  function Settle(host: Host, fs: Tree, f: File, uid: Option<Id>, gid: Option<Id>, changed: bool): Run {
    match Fix(host, fs, f.path, ModeOf(f), uid, gid)
    case Unfixable => Run(fs, Failure)
    case Fixed(gs, c) => Finish(gs, f.path, changed || c)
  }

  function RunDirectory(host: Host, fs: Tree, f: File, uid: Option<Id>, gid: Option<Id>): Run {
    match MkdirAll(host, fs, f.path, DIR_MODE)
    case None => Run(fs, Failure)
    case Some(gs) =>
      if !f.recurse then Settle(host, gs, f, uid, gid, f.path !in fs)
      else if f.path !in gs || WalkFails(gs, f.path, ModeOf(f)) then Run(gs, Failure)
      else Finish(FixTree(gs, f.path, ModeOf(f), uid, gid), f.path,
                  f.path !in fs || TreeNeeds(gs, f.path, ModeOf(f), uid, gid))
  }

  function RunFile(host: Host, fs: Tree, f: File, uid: Option<Id>, gid: Option<Id>): Run {
    if f.path !in fs then Run(fs, Failure)
    else if f.mode.None? && f.owner == "" && f.group == "" then Run(fs, Success(false, true, None))
    else Settle(host, fs, f, uid, gid, false)
  }

  function RunLink(host: Host, fs: Tree, f: File, uid: Option<Id>, gid: Option<Id>): Run {
    var (gs, changed) := Linked(host, fs, f);
    if changed.None? then Run(gs, Failure)
    else if f.follow == Some(false) then Finish(gs, f.path, changed.value)
    else Settle(host, gs, f, uid, gid, changed.value)
  }

  function RunTouch(host: Host, fs: Tree, f: File, uid: Option<Id>, gid: Option<Id>): Run {
    if f.path in fs then Settle(host, fs, f, uid, gid, false)
    else
      match Create(fs, f.path, Node(Reg(""), host.NewMeta(FILE_MODE)))
      case None => Run(fs, Failure)
      case Some(gs) => Settle(host, gs, f, uid, gid, true)
  }

  function RunAbsent(fs: Tree, p: Path): Run {
    if p !in fs then Run(fs, Success(false, false, None))
    // The root itself cannot be unlinked; everything under it is gone by then.
    else if p == [] then Run(map[[] := fs[[]]], Failure)
    else Run(Remove(fs, p), Success(true, false, None))
  }

  /** The meaning of `Apply`. */
  function Applying(host: Host, fs: Tree, f: File): Run {
    if Lstat(fs, f.path).Blocked? then Run(fs, Failure)
    else
      var state := ActualState(f, f.path in fs);
      var uid, gid := Account(f.owner, host.uidOf), Account(f.group, host.gidOf);
      if uid.None? || gid.None? then Run(fs, Failure)
      else if state == ABSENT then RunAbsent(fs, f.path)
      else if state == DIRECTORY then RunDirectory(host, fs, f, uid.value, gid.value)
      else if state == FILE then RunFile(host, fs, f, uid.value, gid.value)
      else if state == LINK then RunLink(host, fs, f, uid.value, gid.value)
      else if state == TOUCH then RunTouch(host, fs, f, uid.value, gid.value)
      else Run(fs, Failure)
  }

  /** Check, then apply when the check asks for it. */
  method FixPath(fs: Machine, p: Path, mode: string, uid: Option<Id>, gid: Option<Id>) returns (r: Option<bool>)
    modifies fs
    ensures match Fix(fs.host, old(fs.fs), p, mode, uid, gid) {
              case Fixed(gs, c) => r == Some(c) && fs.fs == gs
              case Unfixable => r.None? && fs.fs == old(fs.fs) }
  {
    r := NeedsModeOrOwnershipChange(fs, p, mode, uid, gid);
    if r == Some(true) {
      var s := ApplyModeAndIDs(fs, p, mode, uid, gid);
      if s.Fail? { return None; }
    }
  }

  method MakeLink(fs: Machine, f: File) returns (r: Option<bool>)
    modifies fs
    ensures (fs.fs, r) == Linked(fs.host, old(fs.fs), f)
  {
    if f.path in fs.fs {
      if !fs.fs[f.path].kind.Link? { return None; }
      if fs.fs[f.path].kind.target == f.src { return Some(false); }
      fs.fs := fs.fs - {f.path};
    }
    if f.src == "" { return None; }
    var s := fs.CreateNode(f.path, fs.host.NewLink(f.src));
    return if s.Done? then Some(true) else None;
  }

  method Apply(fs: Machine, f: File) returns (r: Outcome)
    requires Valid(fs.fs)
    modifies fs
    ensures Run(fs.fs, r) == Applying(fs.host, old(fs.fs), f)
  {
    var stat := Lstat(fs.fs, f.path);
    if stat.Blocked? { return Failure; }
    var exists_ := stat.Found?;
    var actualState := f.state;
    if f.state == "" && !exists_ {
      actualState := if f.recurse then DIRECTORY else FILE;
    }
    var uid, gid := Account(f.owner, fs.host.uidOf), Account(f.group, fs.host.gidOf);
    if uid.None? || gid.None? { return Failure; }
    var changed := false;

    if actualState == ABSENT {
      if exists_ {
        if f.path == [] {
          fs.fs := map[[] := fs.fs[[]]];
          return Failure;
        }
        fs.fs := Remove(fs.fs, f.path);
      }
      return Success(exists_, false, None);
    } else if actualState == DIRECTORY {
      var s := fs.MkdirAllPath(f.path, DIR_MODE);
      if s.Fail? { return Failure; }
      MkdirAllKeepsValid(fs.host, old(fs.fs), f.path, DIR_MODE);
      changed := !exists_;
      var c: Option<bool>;
      if f.recurse {
        c := FixRecursively(fs, f.path, ModeOf(f), uid.value, gid.value);
      } else {
        c := FixPath(fs, f.path, ModeOf(f), uid.value, gid.value);
      }
      if c.None? { return Failure; }
      changed := changed || c.value;
    } else if actualState == FILE {
      if !exists_ { return Failure; }
      if f.mode.None? && f.owner == "" && f.group == "" { return Success(false, true, None); }
      var c := FixPath(fs, f.path, ModeOf(f), uid.value, gid.value);
      if c.None? { return Failure; }
      changed := c.value;
    } else if actualState == LINK {
      var made := MakeLink(fs, f);
      if made.None? { return Failure; }
      changed := made.value;
      if f.follow != Some(false) {
        var c := FixPath(fs, f.path, ModeOf(f), uid.value, gid.value);
        if c.None? { return Failure; }
        changed := changed || c.value;
      }
    } else if actualState == TOUCH {
      if !exists_ {
        var s := fs.CreateNode(f.path, Node(Reg(""), fs.host.NewMeta(FILE_MODE)));
        if s.Fail? { return Failure; }
        changed := true;
      }
      var c := FixPath(fs, f.path, ModeOf(f), uid.value, gid.value);
      if c.None? { return Failure; }
      changed := changed || c.value;
    } else {
      return Failure;
    }

    var last := Lstat(fs.fs, f.path);
    if !last.Found? { return Failure; }
    return Success(changed, false, Some(last.node));
  }
}
