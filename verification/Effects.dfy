/**
 What a file task does to the file system, state by state and name by name, in terms of what the
 task asks for: when it succeeds, what is where afterwards, and what it reports.
 */
module Effects {
  import opened Prelude
  import Mode
  import ModeText
  import opened FileSystem
  import opened File
  import opened FileProperties

  // ---------------------------------------------------------------- what a task asks of a node

  /** The accounts named exist. */
  predicate AccountsKnown(host: Host, f: File) {
    (f.owner != "" ==> host.uidOf(f.owner).Some?) && (f.group != "" ==> host.gidOf(f.group).Some?)
  }

  predicate OwnerWrong(host: Host, f: File, m: Meta) {
    (f.owner != "" && host.uidOf(f.owner) != Some(m.uid)) || (f.group != "" && host.gidOf(f.group) != Some(m.gid))
  }

  /** The permissions that `text` makes of `current`. */
  function Asked(text: string, current: Mode.Perm): Option<Mode.Perm> {
    if text == "" then Some(current)
    else
      match ModeText.ParseUint(text)
      case Some(n) => Some(Mode.FromNumber(n).perm)
      case None => Mode.Evaluate(text, current)
  }

  /** The permissions `own` are not what is asked; being asked for none at all is not a request. */
  predicate ModeWrong(text: string, own: Mode.Perm, current: Mode.Perm) {
    text != "" &&
    match ModeText.ParseUint(text)
    case Some(n) => n != 0 && Mode.FromNumber(n) != Mode.FileMode(0, own)
    case None =>
      var m := Mode.Evaluate(text, current);
      m.Some? && m.value != {} && m.value != own
  }

  /** A node given all that is asked. */
  function Given(host: Host, f: File, text: string, m: Meta): Meta {
    Meta(match Asked(text, m.mode) { case Some(mode) => mode case None => m.mode },
         match (if f.owner == "" then None else host.uidOf(f.owner)) { case Some(uid) => uid case None => m.uid },
         match (if f.group == "" then None else host.gidOf(f.group)) { case Some(gid) => gid case None => m.gid })
  }

  function Text(f: File): string {
    match f.mode case Some(text) => text case None => ""
  }

  // ---------------------------------------------------------------- what a task makes

  function Prefixes(p: Path): set<Path> {
    set k | 0 <= k <= |p| :: p[..k]
  }

  /** What is there once everything missing has been made: directories 0755, files 0666, less the umask; links 0777. */
  function Begun(host: Host, fs: Tree, f: File): Tree {
    if f.state == "directory" || f.state == "" then
      fs + map p | p in Prefixes(f.path) && p !in fs ::
          Node(Dir, Meta(Mode.FromNumber(493).perm - host.umask, host.uid, host.gid))
    else if f.state == "touch" && f.path !in fs then
      fs[f.path := Node(Reg(""), Meta(Mode.FromNumber(438).perm - host.umask, host.uid, host.gid))]
    else if f.state == "link" && !(f.path in fs && fs[f.path].kind == Link(f.src)) then
      fs[f.path := Node(Link(f.src), Meta(Mode.FromNumber(511).perm, host.uid, host.gid))]
    else fs
  }

  /** The constants in numbers. */
  lemma ModesInNumbers()
    ensures DIR_MODE == Mode.FromNumber(493).perm && FILE_MODE == Mode.FromNumber(438).perm
    ensures Mode.ALL == Mode.FromNumber(511).perm
    ensures Mode.FromNumber(0) == Mode.NO_MODE
  {
    forall b: Mode.Bit
      ensures b in DIR_MODE <==> b in Mode.FromNumber(493).perm
      ensures b in FILE_MODE <==> b in Mode.FromNumber(438).perm
      ensures b in Mode.ALL <==> b in Mode.FromNumber(511).perm
      ensures b !in Mode.FromNumber(0).perm
    {
      BitsInNumbers(b);
    }
  }

  lemma BitsInNumbers(b: Mode.Bit)
    ensures b in DIR_MODE <==> b in Mode.FromNumber(493).perm
    ensures b in FILE_MODE <==> b in Mode.FromNumber(438).perm
    ensures b in Mode.ALL <==> b in Mode.FromNumber(511).perm
    ensures b !in Mode.FromNumber(0).perm
  {
    Mode.AllBits(b);
  }

  // ---------------------------------------------------------------- one path

  lemma OwnersSame(host: Host, f: File, m: Meta)
    requires AccountsKnown(host, f)
    ensures OwnerDiffers(m, Uid(host, f), Gid(host, f)) <==> OwnerWrong(host, f, m)
    ensures forall mode :: Owned(Meta(mode, m.uid, m.gid), Uid(host, f), Gid(host, f)) ==
                           Meta(mode, Given(host, f, "", m).uid, Given(host, f, "", m).gid)
    ensures forall text :: Given(host, f, text, m).uid == Given(host, f, "", m).uid
                           && Given(host, f, text, m).gid == Given(host, f, "", m).gid
  {}

  lemma ModesSame(text: string, own: Mode.Perm, current: Mode.Perm)
    requires NodeDesired(text, current).Some?
    ensures var d := NodeDesired(text, current).value;
            && (ModeWrong(text, own, current) <==> d != Mode.NO_MODE && d != Mode.FileMode(0, own))
            && (text != "" ==> Asked(text, current) == Some(d.perm))
  {
    ModesInNumbers();
    if text != "" && ModeText.ParseUint(text).Some? {
      var n := ModeText.ParseUint(text).value;
      Mode.NumberOfBits(n);
      Mode.NumberOfBits(0);
    }
  }

  /** Where the path leads, the permissions there; none if it leads nowhere. */
  function Current(host: Host, b: Tree, f: File): Mode.Perm {
    match Resolve(host, b, f.path) case Some(q) => b[q].meta.mode case None => {}
  }

  /** What the path itself has is not what is asked. */
  predicate PathWrong(host: Host, b: Tree, f: File) {
    f.path in b && (OwnerWrong(host, f, b[f.path].meta) || ModeWrong(Text(f), b[f.path].meta.mode, Current(host, b, f)))
  }

  /** The request can be judged, and met if need be. */
  predicate CanSettle(host: Host, b: Tree, f: File) {
    && f.path in b
    && (Text(f) != "" && ModeText.ParseUint(Text(f)).None? ==>
          f.path != [] && Resolve(host, b, f.path).Some? && Mode.Evaluate(Text(f), Current(host, b, f)).Some?)
    && (PathWrong(host, b, f) ==> Resolve(host, b, f.path).Some?)
  }

  /** The tree once the node that the path leads to has been given what is asked, if the path itself is wrong. */
  ghost predicate SettledTo(host: Host, b: Tree, f: File, gs: Tree) {
    forall p :: At(gs, p) ==
                if PathWrong(host, b, f) && Resolve(host, b, f.path) == Some(p)
                then Some(Node(b[p].kind, Given(host, f, Text(f), b[p].meta)))
                else At(b, p)
  }

  lemma NeedsSame(host: Host, b: Tree, f: File)
    requires AccountsKnown(host, f)
    ensures var needs := Needs(host, b, f.path, ModeOf(f), Uid(host, f), Gid(host, f));
            && (needs.Some? <==> f.path in b && Desired(host, b, f.path, ModeOf(f)).Some?)
            && (needs.Some? ==> needs.value == PathWrong(host, b, f))
  {
    var d := Desired(host, b, f.path, ModeOf(f));
    if f.path in b && d.Some? {
      OwnersSame(host, f, b[f.path].meta);
      if Symbolic(ModeOf(f)) {
        ModesSame(ModeOf(f), b[f.path].meta.mode, Current(host, b, f));
      } else {
        ModesSame(ModeOf(f), b[f.path].meta.mode, {});
      }
    }
  }

  lemma SettleAccepts(host: Host, b: Tree, f: File, changed: bool)
    requires AccountsKnown(host, f)
    ensures Settle(host, b, f, Uid(host, f), Gid(host, f), changed).outcome.Success? <==> CanSettle(host, b, f)
  {
    NeedsSame(host, b, f);
    AppliedNode(host, b, f.path, ModeOf(f), Uid(host, f), Gid(host, f));
    if f.path in b && Desired(host, b, f.path, ModeOf(f)).Some? {
      AppliedIfLeads(host, b, f.path, ModeOf(f), Uid(host, f), Gid(host, f));
    }
  }

  lemma AppliedIfLeads(host: Host, b: Tree, p: Path, mode: string, uid: Option<Id>, gid: Option<Id>)
    requires Desired(host, b, p, mode).Some?
    ensures Applied(host, b, p, mode, uid, gid).Some? <==> Resolve(host, b, p).Some?
  {
    if mode != "" && Resolve(host, b, p).Some? {
      ChownAfterChmod(host, b, Chmod(host, b, p, Desired(host, b, p, mode).value).value, p);
    }
  }

  lemma SettleEffect(host: Host, b: Tree, f: File, changed: bool)
    requires AccountsKnown(host, f)
    requires Settle(host, b, f, Uid(host, f), Gid(host, f), changed).outcome.Success?
    ensures var r := Settle(host, b, f, Uid(host, f), Gid(host, f), changed);
            && SettledTo(host, b, f, r.fs)
            && r.outcome == Success(changed || PathWrong(host, b, f), false, At(r.fs, f.path))
  {
    NeedsSame(host, b, f);
    AppliedNode(host, b, f.path, ModeOf(f), Uid(host, f), Gid(host, f));
    if PathWrong(host, b, f) {
      var q := Resolve(host, b, f.path).value;
      OwnersSame(host, f, b[q].meta);
      if ModeOf(f) != "" {
        ModesSame(ModeOf(f), b[q].meta.mode, if Symbolic(ModeOf(f)) then b[q].meta.mode else {});
      }
    }
  }

  // ---------------------------------------------------------------- when a task succeeds

  /** Every ancestor that is there is a directory. */
  predicate Reachable(fs: Tree, p: Path) {
    forall k :: 0 <= k < |p| && p[..k] in fs ==> fs[p[..k]].kind.Dir?
  }

  lemma {:induction false} ReachableExactly(fs: Tree, p: Path)
    requires Valid(fs)
    ensures Reachable(fs, p) <==> !Lstat(fs, p).Blocked?
    decreases |p|
  {
    if p in fs {
      forall k | 0 <= k < |p| ensures IsDir(fs, p[..k]) { AncestorsAreDirs(fs, p[..k], p); }
    } else {
      var up := Parent(p);
      ReachableExactly(fs, up);
      forall k | 0 <= k < |up| ensures up[..k] == p[..k] {}
      assert p[..|up|] == up;
      if Reachable(fs, up) && (up in fs ==> fs[up].kind.Dir?) {
        forall k | 0 <= k < |p| && p[..k] in fs ensures fs[p[..k]].kind.Dir? {
          if k < |up| { assert p[..k] == up[..k]; }
        }
      }
      if Reachable(fs, p) {
        forall k | 0 <= k < |up| && up[..k] in fs ensures fs[up[..k]].kind.Dir? { assert up[..k] == p[..k]; }
      }
    }
  }

  /** A walk from the path meets no mode it cannot read. */
  predicate CanWalk(b: Tree, f: File) {
    f.path in b &&
    (!b[f.path].kind.Link? && Text(f) != "" && ModeText.ParseUint(Text(f)).None? ==>
       f.path != [] && Mode.Evaluate(Text(f), {}).Some?)
  }

  /** What a caller can look at to know whether a task will succeed. */
  predicate Accepts(host: Host, fs: Tree, f: File) {
    && Reachable(fs, f.path) && AccountsKnown(host, f)
    && var b := Begun(host, fs, f);
       if f.state == "absent" then f.path != []
       else if f.state == "directory" then
         && (f.path in fs ==> Resolve(host, fs, f.path).Some? && fs[Resolve(host, fs, f.path).value].kind.Dir?)
         && (if f.recurse then CanWalk(b, f) else CanSettle(host, b, f))
       else if f.state == "file" then
         CanSettle(host, b, f)
       else if f.state == "link" then
         && (if f.path in fs then fs[f.path].kind.Link? else f.path != [] && IsDir(fs, Parent(f.path)))
         && (b != fs ==> f.src != "")
         && (f.follow != Some(false) ==> CanSettle(host, b, f))
       else if f.state == "touch" then
         && (f.path in fs || (f.path != [] && IsDir(fs, Parent(f.path))))
         && CanSettle(host, b, f)
       else f.state == "" && f.path !in fs && f.recurse && CanWalk(b, f)
  }

  lemma BegunDirs(host: Host, fs: Tree, f: File)
    requires Valid(fs) && (f.state == "directory" || f.state == "")
    requires MkdirAll(host, fs, f.path, DIR_MODE).Some?
    ensures MkdirAll(host, fs, f.path, DIR_MODE).value == Begun(host, fs, f)
    ensures Begun(host, fs, f) != fs <==> f.path !in fs
  {
    ModesInNumbers();
    MkdirAllEffect(host, fs, f.path, DIR_MODE);
    var gs, b := MkdirAll(host, fs, f.path, DIR_MODE).value, Begun(host, fs, f);
    forall x ensures At(gs, x) == At(b, x) { PrefixesOf(f.path, x); }
    SameTree(gs, b);
    PrefixesOf(f.path, f.path);
    if f.path in fs { NoMissingDirs(fs, f.path); }
  }

  lemma PrefixesOf(p: Path, x: Path)
    ensures x in Prefixes(p) <==> x <= p
  {
    if x <= p { assert x == p[..|x|]; }
  }

  lemma SameTree(a: Tree, b: Tree)
    requires forall x :: At(a, x) == At(b, x)
    ensures a == b
  {
    forall x ensures x in a <==> x in b { assert At(a, x) == At(b, x); }
    forall x | x in a ensures a[x] == b[x] { assert At(a, x) == At(b, x); }
  }

  lemma MkdirAllAccepts(host: Host, fs: Tree, p: Path)
    requires Valid(fs) && Reachable(fs, p)
    ensures MkdirAll(host, fs, p, DIR_MODE).Some? <==>
            (p in fs ==> Resolve(host, fs, p).Some? && fs[Resolve(host, fs, p).value].kind.Dir?)
  {
    ReachableExactly(fs, p);
    LstatFound(fs, p);
  }

  lemma WalkAccepts(host: Host, b: Tree, f: File)
    requires f.path in b
    ensures !WalkFails(b, f.path, ModeOf(f)) <==> CanWalk(b, f)
  {
    if Symbolic(ModeOf(f)) { Mode.EvaluateIsLastWins(ModeOf(f), {}); }
  }

  /** A task succeeds if and only if it is acceptable. */
  lemma SucceedsExactly(host: Host, fs: Tree, f: File)
    requires Valid(fs)
    ensures Applying(host, fs, f).outcome.Success? <==> Accepts(host, fs, f)
  {
    ReachableExactly(fs, f.path);
    LstatFound(fs, f.path);
    if Reachable(fs, f.path) && AccountsKnown(host, f) {
      AppliesState(host, fs, f);
      if f.state == "directory" || f.state == "" {
        DirectoryAccepts(host, fs, f);
      } else if f.state == "file" {
        if !(f.mode.None? && f.owner == "" && f.group == "") { SettleAccepts(host, fs, f, false); }
      } else if f.state == "link" {
        LinkAccepts(host, fs, f);
      } else if f.state == "touch" {
        TouchAccepts(host, fs, f);
      }
    }
  }

  /** Which half of the module runs. */
  lemma AppliesState(host: Host, fs: Tree, f: File)
    requires !Lstat(fs, f.path).Blocked? && AccountsKnown(host, f)
    ensures var uid, gid := Uid(host, f), Gid(host, f);
            Applying(host, fs, f) ==
            if f.state == "absent" then RunAbsent(fs, f.path)
            else if f.state == "directory" || (f.state == "" && f.path !in fs && f.recurse)
            then RunDirectory(host, fs, f, uid, gid)
            else if f.state == "file" || (f.state == "" && f.path !in fs) then RunFile(host, fs, f, uid, gid)
            else if f.state == "link" then RunLink(host, fs, f, uid, gid)
            else if f.state == "touch" then RunTouch(host, fs, f, uid, gid)
            else Run(fs, Failure)
  {}

  lemma DirectoryAccepts(host: Host, fs: Tree, f: File)
    requires Valid(fs) && Reachable(fs, f.path) && AccountsKnown(host, f) && (f.state == "directory" || f.state == "")
    ensures RunDirectory(host, fs, f, Uid(host, f), Gid(host, f)).outcome.Success? <==>
            && (f.path in fs ==> Resolve(host, fs, f.path).Some? && fs[Resolve(host, fs, f.path).value].kind.Dir?)
            && (if f.recurse then CanWalk(Begun(host, fs, f), f) else CanSettle(host, Begun(host, fs, f), f))
  {
    MkdirAllAccepts(host, fs, f.path);
    if MkdirAll(host, fs, f.path, DIR_MODE).Some? {
      BegunDirs(host, fs, f);
      MkdirAllLeadsToDir(host, fs, f.path);
      SettleAccepts(host, Begun(host, fs, f), f, f.path !in fs);
      WalkAccepts(host, Begun(host, fs, f), f);
      if f.recurse { RunDirectoryTree(host, fs, f, Uid(host, f), Gid(host, f)); }
    }
  }

  lemma LinkBegun(host: Host, fs: Tree, f: File)
    requires Valid(fs) && f.state == "link" && Linked(host, fs, f).1.Some?
    ensures Linked(host, fs, f).0 == Begun(host, fs, f) && (Linked(host, fs, f).1.value <==> Begun(host, fs, f) != fs)
    ensures f.path in Begun(host, fs, f)
  {
    ModesInNumbers();
    var b := Begun(host, fs, f);
    if f.path in fs && fs[f.path].kind != Link(f.src) {
      assert fs - {f.path} + map[f.path := b[f.path]] == b;
      assert (fs - {f.path})[f.path := b[f.path]] == b;
    }
    if b == fs { assert f.path in fs; }
  }

  lemma LinkAccepts(host: Host, fs: Tree, f: File)
    requires Valid(fs) && AccountsKnown(host, f) && f.state == "link"
    ensures RunLink(host, fs, f, Uid(host, f), Gid(host, f)).outcome.Success? <==>
            && (if f.path in fs then fs[f.path].kind.Link? else f.path != [] && IsDir(fs, Parent(f.path)))
            && (Begun(host, fs, f) != fs ==> f.src != "")
            && (f.follow != Some(false) ==> CanSettle(host, Begun(host, fs, f), f))
  {
    LinkedExactly(host, fs, f);
    if Linked(host, fs, f).1.Some? {
      LinkBegun(host, fs, f);
      SettleAccepts(host, Begun(host, fs, f), f, Linked(host, fs, f).1.value);
    }
  }

  lemma LinkedExactly(host: Host, fs: Tree, f: File)
    requires Valid(fs) && f.state == "link"
    ensures Linked(host, fs, f).1.Some? <==>
            && (if f.path in fs then fs[f.path].kind.Link? else f.path != [] && IsDir(fs, Parent(f.path)))
            && (Begun(host, fs, f) != fs ==> f.src != "")
  {
    var b := Begun(host, fs, f);
    assert b != fs <==> !(f.path in fs && fs[f.path].kind == Link(f.src)) by {
      assert b == fs || b[f.path].kind == Link(f.src);
    }
    if f.path in fs && fs[f.path].kind.Link? {
      assert f.path != [] && IsDir(fs, Parent(f.path)) && Parent(f.path) != f.path;
      assert IsDir(fs - {f.path}, Parent(f.path));
    }
  }

  lemma TouchAccepts(host: Host, fs: Tree, f: File)
    requires Valid(fs) && AccountsKnown(host, f) && f.state == "touch"
    ensures RunTouch(host, fs, f, Uid(host, f), Gid(host, f)).outcome.Success? <==>
            && (f.path in fs || (f.path != [] && IsDir(fs, Parent(f.path))))
            && CanSettle(host, Begun(host, fs, f), f)
  {
    ModesInNumbers();
    SettleAccepts(host, Begun(host, fs, f), f, f.path !in fs);
  }

  // ---------------------------------------------------------------- what is where afterwards

  /** Links have only an owner to be wrong. */
  predicate NodeWrong(host: Host, f: File, n: Node) {
    OwnerWrong(host, f, n.meta) || (!n.kind.Link? && ModeWrong(Text(f), n.meta.mode, n.meta.mode))
  }

  /** A node of a walk, afterwards. */
  function Visited(host: Host, f: File, n: Node): Node {
    if NodeWrong(host, f, n) then Node(n.kind, Given(host, f, if n.kind.Link? then "" else Text(f), n.meta)) else n
  }

  lemma VisitedSame(host: Host, f: File, n: Node)
    requires AccountsKnown(host, f) && (n.kind.Link? || NodeDesired(ModeOf(f), n.meta.mode).Some?)
    ensures NodeNeeds(n, ModeOf(f), Uid(host, f), Gid(host, f)) <==> NodeWrong(host, f, n)
    ensures NodeFixed(n, ModeOf(f), Uid(host, f), Gid(host, f)) == Visited(host, f, n)
  {
    OwnersSame(host, f, n.meta);
    if !n.kind.Link? { ModesSame(ModeOf(f), n.meta.mode, n.meta.mode); }
  }

  lemma WalkReads(b: Tree, f: File, p: Path)
    requires Valid(b) && f.path in b && !WalkFails(b, f.path, ModeOf(f)) && p in b && f.path <= p
    ensures b[p].kind.Link? || NodeDesired(ModeOf(f), b[p].meta.mode).Some?
  {
    if p != f.path { AncestorsAreDirs(b, f.path, p); }
    if Symbolic(ModeOf(f)) { Mode.EvaluateIsLastWins(ModeOf(f), b[p].meta.mode); }
  }

  /** The tree after a walk: every node at or below the path as visited, everything else as it was. */
  ghost predicate WalkedTo(host: Host, b: Tree, f: File, gs: Tree) {
    forall p :: At(gs, p) == if f.path <= p && p in b then Some(Visited(host, f, b[p])) else At(b, p)
  }

  ghost predicate SomeWrong(host: Host, b: Tree, f: File) {
    exists p :: p in b && f.path <= p && NodeWrong(host, f, b[p])
  }

  lemma WalkEffect(host: Host, b: Tree, f: File)
    requires Valid(b) && f.path in b && AccountsKnown(host, f) && !WalkFails(b, f.path, ModeOf(f))
    ensures WalkedTo(host, b, f, FixTree(b, f.path, ModeOf(f), Uid(host, f), Gid(host, f)))
    ensures TreeNeeds(b, f.path, ModeOf(f), Uid(host, f), Gid(host, f)) <==> SomeWrong(host, b, f)
  {
    forall p | p in b && f.path <= p
      ensures NodeNeeds(b[p], ModeOf(f), Uid(host, f), Gid(host, f)) <==> NodeWrong(host, f, b[p])
      ensures NodeFixed(b[p], ModeOf(f), Uid(host, f), Gid(host, f)) == Visited(host, f, b[p])
    {
      WalkReads(b, f, p);
      VisitedSame(host, f, b[p]);
    }
  }

  /** Everything at or below the path is gone, and nothing else. */
  lemma AbsentEffect(host: Host, fs: Tree, f: File)
    requires Valid(fs) && f.state == "absent" && Applying(host, fs, f).outcome.Success?
    ensures var r := Applying(host, fs, f);
            && (forall p :: At(r.fs, p) == if f.path <= p then None else At(fs, p))
            && r.outcome == Success(f.path in fs, false, None)
  {
    SucceedsExactly(host, fs, f);
    ReachableExactly(fs, f.path);
    AppliesState(host, fs, f);
    if f.path !in fs {
      forall p | f.path <= p ensures p !in fs {
        if p in fs && p != f.path { AncestorsAreDirs(fs, f.path, p); }
      }
    }
  }

  /** A recursive directory task: the directory and its missing ancestors are made, and everything below is visited. */
  lemma RecursiveEffect(host: Host, fs: Tree, f: File)
    requires Valid(fs) && f.recurse && (f.state == "directory" || f.state == "")
        && Applying(host, fs, f).outcome.Success?
    ensures var r, b := Applying(host, fs, f), Begun(host, fs, f);
            && WalkedTo(host, b, f, r.fs)
            && r.outcome == Success(b != fs || SomeWrong(host, b, f), false, At(r.fs, f.path))
  {
    SucceedsExactly(host, fs, f);
    ReachableExactly(fs, f.path);
    AppliesState(host, fs, f);
    MkdirAllAccepts(host, fs, f.path);
    BegunDirs(host, fs, f);
    MkdirAllKeepsValid(host, fs, f.path, DIR_MODE);
    MkdirAllLeadsToDir(host, fs, f.path);
    RunDirectoryTree(host, fs, f, Uid(host, f), Gid(host, f));
    WalkEffect(host, Begun(host, fs, f), f);
  }

  /** Whether the task looks at its path after making what is missing: all do but a link that is not followed. */
  predicate Looks(f: File) {
    f.state == "file" || f.state == "touch" || (f.state == "link" && f.follow != Some(false))
    || (f.state == "directory" && !f.recurse)
  }

  /**
   The other tasks: what is missing is made, and then, if the path itself has not what is asked, the
   node it leads to is given it. Nothing else changes.
   */
  lemma LookEffect(host: Host, fs: Tree, f: File)
    requires Valid(fs) && Looks(f) && Applying(host, fs, f).outcome.Success?
    ensures var r, b := Applying(host, fs, f), Begun(host, fs, f);
            && f.path in b && SettledTo(host, b, f, r.fs)
            && r.outcome == if f.state == "file" && f.mode.None? && f.owner == "" && f.group == ""
                            then Success(false, true, None)
                            else Success(b != fs || PathWrong(host, b, f), false, At(r.fs, f.path))
  {
    SucceedsExactly(host, fs, f);
    ReachableExactly(fs, f.path);
    AppliesState(host, fs, f);
    var b := Begun(host, fs, f);
    if f.state == "directory" {
      MkdirAllAccepts(host, fs, f.path);
      BegunDirs(host, fs, f);
      SettleEffect(host, b, f, f.path !in fs);
    } else if f.state == "file" {
      if !(f.mode.None? && f.owner == "" && f.group == "") { SettleEffect(host, b, f, false); }
    } else if f.state == "touch" {
      ModesInNumbers();
      SettleEffect(host, b, f, f.path !in fs);
    } else {
      LinkedExactly(host, fs, f);
      LinkBegun(host, fs, f);
      SettleEffect(host, b, f, b != fs);
    }
  }

  /** A link that is not followed: it is made, or replaced, and nothing else changes. */
  lemma UnfollowedEffect(host: Host, fs: Tree, f: File)
    requires Valid(fs) && f.state == "link" && f.follow == Some(false) && Applying(host, fs, f).outcome.Success?
    ensures var r, b := Applying(host, fs, f), Begun(host, fs, f);
            r == Run(b, Success(b != fs, false, At(b, f.path))) && f.path in b && b[f.path].kind == Link(f.src)
  {
    SucceedsExactly(host, fs, f);
    ReachableExactly(fs, f.path);
    AppliesState(host, fs, f);
    LinkedExactly(host, fs, f);
    LinkBegun(host, fs, f);
  }

  // ---------------------------------------------------------------- what a failure leaves

  /** What has been done when a task gives up. */
  function Abandoned(host: Host, fs: Tree, f: File): Tree
    requires Valid(fs)
  {
    if !Reachable(fs, f.path) || !AccountsKnown(host, f) then fs
    else if f.state == "absent" then map[[] := fs[[]]]
    else if f.state == "directory" || (f.state == "" && f.path !in fs && f.recurse) then
      var q := Resolve(host, fs, f.path);
      if f.path in fs && !(q.Some? && fs[q.value].kind.Dir?) then fs else Begun(host, fs, f)
    else if f.state == "link" then
      if f.path in fs && fs[f.path].kind.Link? then
        if f.src == "" && fs[f.path].kind != Link("") then fs - {f.path} else Begun(host, fs, f)
      else if f.path !in fs && f.path != [] && IsDir(fs, Parent(f.path)) && f.src != "" then Begun(host, fs, f)
      else fs
    else if f.state == "touch" then
      if f.path in fs || (f.path != [] && IsDir(fs, Parent(f.path))) then Begun(host, fs, f) else fs
    else fs
  }

  /** A task that fails leaves what it had made so far, or nothing. */
  lemma FailureEffect(host: Host, fs: Tree, f: File)
    requires Valid(fs) && !Applying(host, fs, f).outcome.Success?
    ensures Applying(host, fs, f) == Run(Abandoned(host, fs, f), Failure)
  {
    ReachableExactly(fs, f.path);
    LstatFound(fs, f.path);
    SucceedsExactly(host, fs, f);
    if Reachable(fs, f.path) && AccountsKnown(host, f) {
      AppliesState(host, fs, f);
      if f.state == "directory" || (f.state == "" && f.path !in fs && f.recurse) {
        MkdirAllAccepts(host, fs, f.path);
        if MkdirAll(host, fs, f.path, DIR_MODE).Some? {
          BegunDirs(host, fs, f);
          DirectoryFails(host, fs, f);
        }
      } else if f.state == "link" {
        LinkFails(host, fs, f);
      } else if f.state == "touch" {
        ModesInNumbers();
        SettleFails(host, Begun(host, fs, f), f, f.path !in fs);
      } else if f.state == "file" || f.state == "" {
        SettleFails(host, fs, f, false);
      }
    }
  }

  lemma SettleFails(host: Host, b: Tree, f: File, changed: bool)
    requires AccountsKnown(host, f)
    ensures var r := Settle(host, b, f, Uid(host, f), Gid(host, f), changed);
            !r.outcome.Success? ==> r == Run(b, Failure)
  {
    NeedsSame(host, b, f);
    AppliedNode(host, b, f.path, ModeOf(f), Uid(host, f), Gid(host, f));
  }

  lemma DirectoryFails(host: Host, fs: Tree, f: File)
    requires Valid(fs) && AccountsKnown(host, f) && MkdirAll(host, fs, f.path, DIR_MODE).Some?
    requires !RunDirectory(host, fs, f, Uid(host, f), Gid(host, f)).outcome.Success?
    ensures RunDirectory(host, fs, f, Uid(host, f), Gid(host, f))
        == Run(MkdirAll(host, fs, f.path, DIR_MODE).value, Failure)
  {
    MkdirAllLeadsToDir(host, fs, f.path);
    if f.recurse {
      RunDirectoryTree(host, fs, f, Uid(host, f), Gid(host, f));
    } else {
      SettleFails(host, MkdirAll(host, fs, f.path, DIR_MODE).value, f, f.path !in fs);
    }
  }

  lemma LinkFails(host: Host, fs: Tree, f: File)
    requires Valid(fs) && Reachable(fs, f.path) && AccountsKnown(host, f) && f.state == "link"
    requires !RunLink(host, fs, f, Uid(host, f), Gid(host, f)).outcome.Success?
    ensures RunLink(host, fs, f, Uid(host, f), Gid(host, f)) == Run(Abandoned(host, fs, f), Failure)
  {
    LinkedExactly(host, fs, f);
    if Linked(host, fs, f).1.Some? {
      LinkBegun(host, fs, f);
      SettleFails(host, Begun(host, fs, f), f, Linked(host, fs, f).1.value);
    }
  }

  // ---------------------------------------------------------------- where a path leads

  /** `chain` goes from one link to where it points, and so on. */
  predicate LinkChain(host: Host, fs: Tree, chain: seq<Path>) {
    && chain != []
    && forall i :: 0 <= i < |chain| - 1 ==>
         chain[i] in fs && fs[chain[i]].kind.Link? && chain[i + 1] == host.locate(chain[i], fs[chain[i]].kind.target)
  }

  lemma {:induction false} FollowExactly(host: Host, fs: Tree, p: Path, fuel: nat) returns (chain: seq<Path>)
    ensures LinkChain(host, fs, chain) && chain[0] == p && |chain| <= fuel + 1
    ensures var last := chain[|chain| - 1];
            if Follow(host, fs, p, fuel).Some?
            then Follow(host, fs, p, fuel).value == last && last in fs && !fs[last].kind.Link?
            else last !in fs || (fs[last].kind.Link? && |chain| == fuel + 1)
    decreases fuel
  {
    chain := [p];
    if p in fs && fs[p].kind.Link? && fuel > 0 {
      var rest := FollowExactly(host, fs, host.locate(p, fs[p].kind.target), fuel - 1);
      chain := [p] + rest;
      assert chain[1] == rest[0];
      forall i | 0 <= i < |chain| - 1
        ensures chain[i] in fs && fs[chain[i]].kind.Link?
            && chain[i + 1] == host.locate(chain[i], fs[chain[i]].kind.target)
      {
        if i > 0 { assert chain[i] == rest[i - 1] && chain[i + 1] == rest[i]; }
      }
    }
  }

  /** A path leads to the end of its chain of links, if that is a node and comes after no more than forty links. */
  lemma ResolveExactly(host: Host, fs: Tree, p: Path) returns (chain: seq<Path>)
    ensures LinkChain(host, fs, chain) && chain[0] == p && |chain| <= 41
    ensures var last := chain[|chain| - 1];
            if Resolve(host, fs, p).Some?
            then Resolve(host, fs, p).value == last && last in fs && !fs[last].kind.Link?
            else last !in fs || (fs[last].kind.Link? && |chain| == 41)
  {
    chain := FollowExactly(host, fs, p, 40);
  }
}
