/** What a file task promises: convergence, an honest Changed flag, and where its effects end. */
module FileProperties {
  import opened Prelude
  import opened FileSystem
  import opened File
  import Mode
  import ModeText

  function Uid(host: Host, f: File): Option<Id> {
    var r := Account(f.owner, host.uidOf);
    if r.Some? then r.value else None
  }

  function Gid(host: Host, f: File): Option<Id> {
    var r := Account(f.group, host.gidOf);
    if r.Some? then r.value else None
  }

  /** Octal text for a number above 0777. */
  predicate Oversize(mode: string) {
    ModeText.ParseUint(mode).Some? && ModeText.ParseUint(mode).value >= 512
  }

  // ---------------------------------------------------------------- the check against the effect

  /**
   For anything but a link, the check says "change needed" exactly when applying would change the
   node, save in two cases: a requested mode of 0, which is not compared, and an octal mode above
   0777 whose permission bits the node already has, which never compares equal.
   */
  lemma CheckAgreesWithEffect(host: Host, fs: Tree, p: Path, mode: string, uid: Option<Id>, gid: Option<Id>)
    requires p in fs && !fs[p].kind.Link? && Desired(host, fs, p, mode).Some?
    ensures Applied(host, fs, p, mode, uid, gid).Some?
    ensures var d := Desired(host, fs, p, mode).value;
            var unseen := mode != "" && d == Mode.NO_MODE && fs[p].meta.mode != {};
            var never := d.high != 0 && d.perm == fs[p].meta.mode;
            Needs(host, fs, p, mode, uid, gid) == Some(Applied(host, fs, p, mode, uid, gid).value != fs)
            <==> OwnerDiffers(fs[p].meta, uid, gid) || (!unseen && !never)
  {
    var d := Desired(host, fs, p, mode).value;
    var gs := Applied(host, fs, p, mode, uid, gid).value;
    var m := if mode == "" then fs[p].meta else fs[p].meta.(mode := d.perm);
    assert gs == fs[p := Node(fs[p].kind, Owned(m, uid, gid))];
    assert gs[p] == fs[p] ==> gs == fs;
  }

  // ---------------------------------------------------------------- one path

  lemma FixShape(host: Host, fs: Tree, p: Path, mode: string, uid: Option<Id>, gid: Option<Id>)
    requires Fix(host, fs, p, mode, uid, gid).Fixed?
    ensures p in fs && SameShape(fs, Fix(host, fs, p, mode, uid, gid).fs)
    ensures Valid(fs) ==> Valid(Fix(host, fs, p, mode, uid, gid).fs)
    ensures !Fix(host, fs, p, mode, uid, gid).changed ==> Fix(host, fs, p, mode, uid, gid).fs == fs
    ensures fs[p].kind.Link? ==> Fix(host, fs, p, mode, uid, gid).fs[p] == fs[p]
    ensures forall q :: q in fs && Resolve(host, fs, p) != Some(q) ==> Fix(host, fs, p, mode, uid, gid).fs[q] == fs[q]
  {
    var gs := Fix(host, fs, p, mode, uid, gid).fs;
    AppliedNode(host, fs, p, mode, uid, gid);
    if Valid(fs) {
      forall q | q in gs && q != [] ensures IsDir(gs, Parent(q)) { assert IsDir(fs, Parent(q)); }
    }
  }

  /** Applying touches the node the path leads to, and keeps its kind. */
  lemma AppliedNode(host: Host, fs: Tree, p: Path, mode: string, uid: Option<Id>, gid: Option<Id>)
    ensures Applied(host, fs, p, mode, uid, gid).Some? ==>
              && Resolve(host, fs, p).Some?
              && var q := Resolve(host, fs, p).value;
              && (mode == "" || Desired(host, fs, p, mode).Some?)
              && var m := if mode == "" then fs[q].meta else fs[q].meta.(mode := Desired(host, fs, p, mode).value.perm);
              && Applied(host, fs, p, mode, uid, gid).value == fs[q := Node(fs[q].kind, Owned(m, uid, gid))]
  {
    if mode != "" && Applied(host, fs, p, mode, uid, gid).Some? {
      ChownAfterChmod(host, fs, Chmod(host, fs, p, Desired(host, fs, p, mode).value).value, p);
    }
  }

  lemma DesiredAgain(mode: string, current: Mode.Perm)
    requires NodeDesired(mode, current).Some?
    ensures NodeDesired(mode, NodeDesired(mode, current).value.perm) == NodeDesired(mode, current)
    ensures !Oversize(mode) <==> NodeDesired(mode, current).value.high == 0
  {
    if Symbolic(mode) {
      Mode.EvaluateIdempotent(mode, current);
    }
  }

  /**
   After the check and its repair, the same check asks for nothing, unless the mode is oversize or the path
   a link.
  */
  lemma FixConverges(host: Host, fs: Tree, p: Path, mode: string, uid: Option<Id>, gid: Option<Id>)
    requires Fix(host, fs, p, mode, uid, gid).Fixed?
    ensures var gs := Fix(host, fs, p, mode, uid, gid).fs;
            Fix(host, gs, p, mode, uid, gid) == Fixed(gs, false) <==>
            if fs[p].kind.Link? then Needs(host, fs, p, mode, uid, gid) == Some(false) else !Oversize(mode)
  {
    var gs := Fix(host, fs, p, mode, uid, gid).fs;
    FixShape(host, fs, p, mode, uid, gid);
    SameShapeFollow(host, fs, gs, p, MAX_LINKS);
    AppliedNode(host, fs, p, mode, uid, gid);
    if Symbolic(mode) {
      var q := Resolve(host, fs, p).value;
      DesiredAgain(mode, fs[q].meta.mode);
      assert Desired(host, gs, p, mode) == Desired(host, fs, p, mode);
    } else {
      DesiredAgain(mode, {});
    }
  }

  // ---------------------------------------------------------------- a whole tree

  lemma NodeConverges(n: Node, mode: string, uid: Option<Id>, gid: Option<Id>)
    requires n.kind.Link? || !Oversize(mode)
    ensures !NodeNeeds(NodeFixed(n, mode, uid, gid), mode, uid, gid)
  {
    if !n.kind.Link? && NodeDesired(mode, n.meta.mode).Some? {
      DesiredAgain(mode, n.meta.mode);
    }
  }

  lemma FixTreeShape(fs: Tree, root: Path, mode: string, uid: Option<Id>, gid: Option<Id>)
    ensures SameShape(fs, FixTree(fs, root, mode, uid, gid))
    ensures Valid(fs) ==> Valid(FixTree(fs, root, mode, uid, gid))
    ensures !TreeNeeds(fs, root, mode, uid, gid) ==> FixTree(fs, root, mode, uid, gid) == fs
  {
    var gs := FixTree(fs, root, mode, uid, gid);
    if Valid(fs) {
      forall q | q in gs && q != [] ensures IsDir(gs, Parent(q)) { assert IsDir(fs, Parent(q)); }
    }
  }

  /** A second walk finds nothing to do, unless an oversize mode is asked of a directory. */
  lemma TreeConverges(fs: Tree, root: Path, mode: string, uid: Option<Id>, gid: Option<Id>)
    requires Valid(fs) && root in fs
    ensures TreeNeeds(FixTree(fs, root, mode, uid, gid), root, mode, uid, gid) <==>
        Oversize(mode) && !fs[root].kind.Link?
  {
    var gs := FixTree(fs, root, mode, uid, gid);
    if Oversize(mode) && !fs[root].kind.Link? {
      DesiredAgain(mode, gs[root].meta.mode);
      assert NodeNeeds(gs[root], mode, uid, gid);
    } else {
      forall q | q in gs && root <= q ensures !NodeNeeds(gs[q], mode, uid, gid) {
        if q != root { AncestorsAreDirs(fs, root, q); }
        NodeConverges(fs[q], mode, uid, gid);
      }
    }
  }

  // ---------------------------------------------------------------- the task

  /** Whether the task compares the mode and owner of its one path. */
  predicate ChecksOnePath(f: File) {
    || (f.state == DIRECTORY && !f.recurse)
    || (f.state == FILE && !(f.mode.None? && f.owner == "" && f.group == ""))
    || (f.state == LINK && f.follow != Some(false))
    || f.state == TOUCH
  }

  /**
   What a caller can look at before the first run: the path ends up as no link and the mode is not
   oversize; or it is a link whose own mode and owner already pass the check (the repair follows
   the link, so it never alters what the check reads); or the task makes no such comparison. A task
   without a state succeeds only by creating, and is refused afterwards.
   */
  predicate Stable(host: Host, fs: Tree, f: File) {
    var linked := if f.state == LINK then Linked(host, fs, f).0 else fs;
    if f.state == "" then false
    else if f.state == ABSENT then true
    else if f.path in linked && linked[f.path].kind.Link? then
      ChecksOnePath(f) ==> Needs(host, linked, f.path, ModeOf(f), Uid(host, f), Gid(host, f)) == Some(false)
    else ChecksOnePath(f) || f.state == DIRECTORY ==> !Oversize(ModeOf(f))
  }

  /** A run that ends where it started and says so. */
  predicate Quiet(fs: Tree, run: Run) {
    run.outcome.Success? && !run.outcome.changed && run.fs == fs
  }

  /** The second run of `f` after `first` changes nothing and says so. */
  predicate Converged(host: Host, first: Run, f: File) {
    Quiet(first.fs, Applying(host, first.fs, f))
  }

  /** `Applying` for a task that names its state and known accounts, on a path that is not blocked. */
  function Dispatched(host: Host, fs: Tree, f: File): Run {
    var uid, gid := Uid(host, f), Gid(host, f);
    if f.state == ABSENT then RunAbsent(fs, f.path)
    else if f.state == DIRECTORY then RunDirectory(host, fs, f, uid, gid)
    else if f.state == FILE then RunFile(host, fs, f, uid, gid)
    else if f.state == LINK then RunLink(host, fs, f, uid, gid)
    else if f.state == TOUCH then RunTouch(host, fs, f, uid, gid)
    else Run(fs, Failure)
  }

  lemma Dispatch(host: Host, fs: Tree, gs: Tree, f: File)
    requires f.state != "" && Applying(host, fs, f).outcome.Success? && !Lstat(gs, f.path).Blocked?
    ensures Applying(host, gs, f) == Dispatched(host, gs, f)
  {}

  lemma LstatFound(fs: Tree, p: Path)
    ensures p in fs <==> Lstat(fs, p).Found?
  {}

  lemma SettleConverges(host: Host, fs: Tree, f: File, uid: Option<Id>, gid: Option<Id>, changed: bool)
    requires Settle(host, fs, f, uid, gid, changed).outcome.Success?
    ensures var gs := Settle(host, fs, f, uid, gid, changed).fs;
            && f.path in fs && f.path in gs && gs[f.path].kind == fs[f.path].kind
            && (Valid(fs) ==> Valid(gs))
            && (Quiet(gs, Settle(host, gs, f, uid, gid, false)) <==>
               if fs[f.path].kind.Link? then Needs(host, fs, f.path, ModeOf(f), uid, gid) == Some(false)
               else !Oversize(ModeOf(f)))
  {
    FixConverges(host, fs, f.path, ModeOf(f), uid, gid);
    FixShape(host, fs, f.path, ModeOf(f), uid, gid);
    var gs := Fix(host, fs, f.path, ModeOf(f), uid, gid).fs;
    if Fix(host, gs, f.path, ModeOf(f), uid, gid).Fixed? {
      FixShape(host, gs, f.path, ModeOf(f), uid, gid);
    }
  }

  /** Making a directory again, after the walk or the repair, makes nothing. */
  lemma MkdirAllAgain(host: Host, fs: Tree, p: Path, gs: Tree)
    requires Valid(fs) && MkdirAll(host, fs, p, DIR_MODE).Some?
    requires SameShape(MkdirAll(host, fs, p, DIR_MODE).value, gs)
    requires forall q :: q in gs ==> gs[q].kind == MkdirAll(host, fs, p, DIR_MODE).value[q].kind
    ensures MkdirAll(host, gs, p, DIR_MODE) == Some(gs)
  {
    var hs := MkdirAll(host, fs, p, DIR_MODE).value;
    MkdirAllKeepsValid(host, fs, p, DIR_MODE);
    SameShapeFollow(host, hs, gs, p, MAX_LINKS);
    MkdirAllLeadsToDir(host, fs, p);
  }

  lemma MkdirAllLeadsToDir(host: Host, fs: Tree, p: Path)
    requires Valid(fs) && MkdirAll(host, fs, p, DIR_MODE).Some?
    ensures var hs := MkdirAll(host, fs, p, DIR_MODE).value;
            && p in hs && (p !in fs ==> hs[p] == host.NewDir(DIR_MODE))
            && Resolve(host, hs, p).Some? && hs[Resolve(host, hs, p).value].kind.Dir?
  {
    if p !in fs {
      assert p[..|p|] == p && p in MissingDirs(fs, p);
    }
  }

  lemma DirectoryConverges(host: Host, fs: Tree, f: File, uid: Option<Id>, gid: Option<Id>)
    requires Valid(fs) && !f.recurse && RunDirectory(host, fs, f, uid, gid).outcome.Success?
    ensures var hs := RunDirectory(host, fs, f, uid, gid).fs;
            && Valid(hs) && f.path in hs
            && (Quiet(hs, RunDirectory(host, hs, f, uid, gid)) <==>
                if f.path in fs && fs[f.path].kind.Link?
                then Needs(host, fs, f.path, ModeOf(f), uid, gid) == Some(false)
                else !Oversize(ModeOf(f)))
  {
    var gs := MkdirAll(host, fs, f.path, DIR_MODE).value;
    MkdirAllKeepsValid(host, fs, f.path, DIR_MODE);
    MkdirAllLeadsToDir(host, fs, f.path);
    var hs := RunDirectory(host, fs, f, uid, gid).fs;
    SettleConverges(host, gs, f, uid, gid, f.path !in fs);
    FixShape(host, gs, f.path, ModeOf(f), uid, gid);
    AppliedNode(host, gs, f.path, ModeOf(f), uid, gid);
    MkdirAllAgain(host, fs, f.path, hs);
  }

  lemma RecursionConverges(host: Host, fs: Tree, f: File, uid: Option<Id>, gid: Option<Id>)
    requires Valid(fs) && f.recurse && RunDirectory(host, fs, f, uid, gid).outcome.Success?
    ensures var hs := RunDirectory(host, fs, f, uid, gid).fs;
            && Valid(hs) && f.path in hs
            && (Quiet(hs, RunDirectory(host, hs, f, uid, gid)) <==>
                (f.path in fs && fs[f.path].kind.Link?) || !Oversize(ModeOf(f)))
  {
    MkdirAllLeadsToDir(host, fs, f.path);
    RunDirectoryTree(host, fs, f, uid, gid);
    var gs := MkdirAll(host, fs, f.path, DIR_MODE).value;
    assert f.path !in fs ==> gs[f.path] == host.NewDir(DIR_MODE);
    FixedTreeConverges(host, fs, gs, f, uid, gid);
  }

  lemma FixedTreeConverges(host: Host, fs: Tree, gs: Tree, f: File, uid: Option<Id>, gid: Option<Id>)
    requires Valid(fs) && f.recurse && MkdirAll(host, fs, f.path, DIR_MODE) == Some(gs)
    requires f.path in gs && !WalkFails(gs, f.path, ModeOf(f))
    ensures var hs := FixTree(gs, f.path, ModeOf(f), uid, gid);
            && Valid(hs)
            && (Quiet(hs, RunDirectory(host, hs, f, uid, gid)) <==> gs[f.path].kind.Link? || !Oversize(ModeOf(f)))
  {
    var hs := FixTree(gs, f.path, ModeOf(f), uid, gid);
    MkdirAllKeepsValid(host, fs, f.path, DIR_MODE);
    FixTreeShape(gs, f.path, ModeOf(f), uid, gid);
    MkdirAllAgain(host, fs, f.path, hs);
    RecursionAgain(host, hs, f, uid, gid);
    TreeConverges(gs, f.path, ModeOf(f), uid, gid);
  }

  lemma RecursionAgain(host: Host, fs: Tree, f: File, uid: Option<Id>, gid: Option<Id>)
    requires f.recurse && f.path in fs && MkdirAll(host, fs, f.path, DIR_MODE) == Some(fs)
        && !WalkFails(fs, f.path, ModeOf(f))
    ensures Quiet(fs, RunDirectory(host, fs, f, uid, gid)) <==> !TreeNeeds(fs, f.path, ModeOf(f), uid, gid)
  {
    RunDirectoryTree(host, fs, f, uid, gid);
    FixTreeShape(fs, f.path, ModeOf(f), uid, gid);
  }

  lemma RunDirectoryTree(host: Host, fs: Tree, f: File, uid: Option<Id>, gid: Option<Id>)
    requires f.recurse && MkdirAll(host, fs, f.path, DIR_MODE).Some?
        && f.path in MkdirAll(host, fs, f.path, DIR_MODE).value
    ensures var gs := MkdirAll(host, fs, f.path, DIR_MODE).value;
            RunDirectory(host, fs, f, uid, gid) ==
            if WalkFails(gs, f.path, ModeOf(f)) then Run(gs, Failure)
            else var hs := FixTree(gs, f.path, ModeOf(f), uid, gid);
                 Run(hs, Success(f.path !in fs || TreeNeeds(gs, f.path, ModeOf(f), uid, gid), false, Some(hs[f.path])))
  {}

  lemma LinkConverges(host: Host, fs: Tree, f: File, uid: Option<Id>, gid: Option<Id>)
    requires Valid(fs) && RunLink(host, fs, f, uid, gid).outcome.Success?
    ensures var hs := RunLink(host, fs, f, uid, gid).fs;
            && Valid(hs) && f.path in hs
            && var gs := Linked(host, fs, f).0;
            && f.path in gs && gs[f.path].kind.Link?
            && (Quiet(hs, RunLink(host, hs, f, uid, gid)) <==>
                (f.follow != Some(false) ==> Needs(host, gs, f.path, ModeOf(f), uid, gid) == Some(false)))
  {
    var gs := Linked(host, fs, f).0;
    LinkedKeepsValid(host, fs, f);
    if f.follow != Some(false) {
      SettleConverges(host, gs, f, uid, gid, Linked(host, fs, f).1.value);
    }
  }

  lemma TouchConverges(host: Host, fs: Tree, f: File, uid: Option<Id>, gid: Option<Id>)
    requires Valid(fs) && RunTouch(host, fs, f, uid, gid).outcome.Success?
    ensures var hs := RunTouch(host, fs, f, uid, gid).fs;
            && Valid(hs) && f.path in hs
            && (Quiet(hs, RunTouch(host, hs, f, uid, gid)) <==>
                if f.path in fs && fs[f.path].kind.Link?
                then Needs(host, fs, f.path, ModeOf(f), uid, gid) == Some(false)
                else !Oversize(ModeOf(f)))
  {
    if f.path in fs {
      SettleConverges(host, fs, f, uid, gid, false);
    } else {
      var n := Node(Reg(""), host.NewMeta(FILE_MODE));
      var gs := Create(fs, f.path, n).value;
      CreateKeepsValid(fs, f.path, n);
      SettleConverges(host, gs, f, uid, gid, true);
    }
  }

  lemma LinkedKeepsValid(host: Host, fs: Tree, f: File)
    requires Valid(fs) && Linked(host, fs, f).1.Some?
    ensures Valid(Linked(host, fs, f).0)
    ensures var gs := Linked(host, fs, f).0; f.path in gs && gs[f.path].kind == Link(f.src)
    ensures Linked(host, fs, f).1.value ==> Linked(host, fs, f).0 != fs
    ensures !Linked(host, fs, f).1.value ==> Linked(host, fs, f).0 == fs
  {
    var gs := Linked(host, fs, f).0;
    forall q | q in gs && q != [] ensures IsDir(gs, Parent(q)) {
      assert q in fs ==> IsDir(fs, Parent(q));
    }
  }

  lemma RemoveKeepsValid(fs: Tree, p: Path)
    requires Valid(fs) && p != []
    ensures Valid(Remove(fs, p)) && p !in Remove(fs, p)
    ensures p in fs ==> !Lstat(Remove(fs, p), p).Blocked?
  {
    var gs := Remove(fs, p);
    forall q | q in gs && q != [] ensures IsDir(gs, Parent(q)) { assert IsDir(fs, Parent(q)); }
    if p in fs {
      assert IsDir(gs, Parent(p));
      assert Lstat(gs, Parent(p)) == Found(gs[Parent(p)]);
    }
  }

  /**
   Convergence, exactly: the second run of a task that succeeded changes nothing and reports
   Changed=false if and only if the task was `Stable` before the first run.
   */
  lemma Convergence(host: Host, fs: Tree, f: File)
    requires Valid(fs) && Applying(host, fs, f).outcome.Success?
    ensures Converged(host, Applying(host, fs, f), f) <==> Stable(host, fs, f)
    ensures Valid(Applying(host, fs, f).fs)
  {
    var gs := Applying(host, fs, f).fs;
    var uid, gid := Uid(host, f), Gid(host, f);
    if f.state == "" {
      UnnamedState(host, fs, f);
    } else {
      Dispatch(host, fs, fs, f);
      if f.state == ABSENT {
        if f.path in fs { RemoveKeepsValid(fs, f.path); }
      } else {
        StatedConverges(host, fs, f);
        LstatFound(gs, f.path);
      }
      Dispatch(host, fs, gs, f);
    }
  }

  /** A task without a state succeeds only by making a directory, and fails the second time. */
  lemma UnnamedState(host: Host, fs: Tree, f: File)
    requires Valid(fs) && f.state == "" && Applying(host, fs, f).outcome.Success?
    ensures !Converged(host, Applying(host, fs, f), f) && Valid(Applying(host, fs, f).fs)
  {
    var gs := Applying(host, fs, f).fs;
    RecursionConverges(host, fs, f, Uid(host, f), Gid(host, f));
    LstatFound(gs, f.path);
  }

  lemma StatedConverges(host: Host, fs: Tree, f: File)
    requires Valid(fs) && f.state != "" && f.state != ABSENT && Dispatched(host, fs, f).outcome.Success?
    ensures var gs := Dispatched(host, fs, f).fs;
            && Valid(gs) && f.path in gs
            && (Quiet(gs, Dispatched(host, gs, f)) <==> Stable(host, fs, f))
  {
    var uid, gid := Uid(host, f), Gid(host, f);
    if f.state == DIRECTORY && f.recurse {
      RecursionConverges(host, fs, f, uid, gid);
    } else if f.state == DIRECTORY {
      DirectoryConverges(host, fs, f, uid, gid);
    } else if f.state == LINK {
      LinkConverges(host, fs, f, uid, gid);
    } else if f.state == TOUCH {
      TouchConverges(host, fs, f, uid, gid);
    } else if f.state == FILE && ChecksOnePath(f) {
      SettleConverges(host, fs, f, uid, gid, false);
    }
  }

  /** Octal 1777 asked of a file: every run reports a change, although after the first none happens. */
  lemma OversizeExample(host: Host)
    ensures var fs: Tree := map[[] := Node(Dir, Meta(Mode.ALL, 0, 0)), ["x"] := Node(Reg(""), Meta({}, 0, 0))];
            var f := File(["x"], FILE, Some("1777"), "", "", false, None, "");
            var first := Applying(host, fs, f);
            && first.outcome.Success? && !Converged(host, first, f)
            && Applying(host, first.fs, f) == Run(first.fs, Success(true, false, Some(first.fs[["x"]])))
  {
    var fs: Tree := map[[] := Node(Dir, Meta(Mode.ALL, 0, 0)), ["x"] := Node(Reg(""), Meta({}, 0, 0))];
    var f := File(["x"], FILE, Some("1777"), "", "", false, None, "");
    assert ModeText.ParseUint("1777") == Some(1023) by {
      assert "1777"[..3] == "177" && "177"[..2] == "17" && "17"[..1] == "1" && "1"[..0] == "";
      assert ModeText.Value("177") == 127;
    }
    var d := Mode.FromNumber(1023);
    assert d.high == 1;
    assert Lstat(fs, ["x"]) == Found(fs[["x"]]);
    var gs := fs[["x"] := Node(Reg(""), Meta(d.perm, 0, 0))];
    assert Applying(host, fs, f).fs == gs;
    assert Lstat(gs, ["x"]) == Found(gs[["x"]]);
    assert gs[["x"] := gs[["x"]]] == gs;
  }

  /** Mode 0644 asked of a file through a link: the link's own 0777 is compared, the target is repaired, for ever. */
  lemma FollowedLinkExample(host: Host)
    requires host.locate(["l"], "t") == ["t"]
    ensures var perm := Mode.FromNumber(420).perm;
            var fs: Tree := map[[] := Node(Dir, Meta(Mode.ALL, 0, 0)),
                                ["l"] := host.NewLink("t"),
                                ["t"] := Node(Reg(""), Meta(perm, 0, 0))];
            var f := File(["l"], FILE, Some("644"), "", "", false, None, "");
            Applying(host, fs, f) == Run(fs, Success(true, false, Some(fs[["l"]])))
  {
    var d := Mode.FromNumber(420);
    var fs: Tree := map[[] := Node(Dir, Meta(Mode.ALL, 0, 0)),
                        ["l"] := host.NewLink("t"),
                        ["t"] := Node(Reg(""), Meta(d.perm, 0, 0))];
    assert ModeText.ParseUint("644") == Some(420) by {
      assert "644"[..2] == "64" && "64"[..1] == "6" && "6"[..0] == "";
      assert ModeText.Value("64") == 52;
    }
    assert Lstat(fs, ["l"]) == Found(fs[["l"]]);
    Mode.AllBits(Mode.Bit(Mode.User, Mode.Exec));
    assert Mode.Bit(Mode.User, Mode.Exec) !in d.perm;
    assert Mode.Bit(Mode.User, Mode.Read) in d.perm by { Mode.AllBits(Mode.Bit(Mode.User, Mode.Read)); }
    assert Follow(host, fs, ["t"], MAX_LINKS - 1) == Some(["t"]);
    assert Resolve(host, fs, ["l"]) == Some(["t"]);
    assert fs[["t"] := fs[["t"]]] == fs;
  }

  // ---------------------------------------------------------------- the Changed flag

  /** The node has all that is asked, so that setting it changes nothing. */
  predicate AlreadySo(m: Meta, mode: string, desired: Mode.FileMode, uid: Option<Id>, gid: Option<Id>) {
    (mode == "" || desired.perm == m.mode) && !OwnerDiffers(m, uid, gid)
  }

  /**
   The check on one path asks for a repair that changes nothing: what the path leads to already has
   all that is asked, and either a link itself differs from it or the number asked for is oversize.
   */
  predicate IdleFix(host: Host, fs: Tree, p: Path, mode: string, uid: Option<Id>, gid: Option<Id>) {
    p in fs &&
    match (Desired(host, fs, p, mode), Resolve(host, fs, p))
    case (Some(d), Some(q)) =>
      && AlreadySo(fs[q].meta, mode, d, uid, gid)
      && (if fs[p].kind.Link? then Differs(fs[p].meta, d, uid, gid) else Oversize(mode))
    case _ => false
  }

  /** The same of a walk: an oversize number whose permissions, and the owners, are everywhere already. */
  predicate IdleTree(fs: Tree, root: Path, mode: string, uid: Option<Id>, gid: Option<Id>)
    requires root in fs
  {
    && Oversize(mode) && !fs[root].kind.Link?
    && forall p :: p in fs && root <= p ==>
         && !OwnerDiffers(fs[p].meta, uid, gid)
         && (fs[p].kind.Link? || fs[p].meta.mode == Mode.FromNumber(ModeText.ParseUint(mode).value).perm)
  }

  /** What a caller can look at before a run that will report a change and make none. */
  predicate Idle(host: Host, fs: Tree, f: File) {
    && f.path in fs
    && if f.state == DIRECTORY && f.recurse then IdleTree(fs, f.path, ModeOf(f), Uid(host, f), Gid(host, f))
       else
         && ChecksOnePath(f)
         && (f.state == LINK ==> fs[f.path].kind == Link(f.src))
         && IdleFix(host, fs, f.path, ModeOf(f), Uid(host, f), Gid(host, f))
  }

  lemma FixHonest(host: Host, fs: Tree, p: Path, mode: string, uid: Option<Id>, gid: Option<Id>)
    requires Fix(host, fs, p, mode, uid, gid).Fixed?
    ensures var r := Fix(host, fs, p, mode, uid, gid);
            && (!r.changed ==> r.fs == fs)
            && (r.changed && r.fs == fs <==> IdleFix(host, fs, p, mode, uid, gid))
  {
    AppliedNode(host, fs, p, mode, uid, gid);
    var d := Desired(host, fs, p, mode).value;
    var needs := Needs(host, fs, p, mode, uid, gid);
    if Symbolic(mode) {
      DesiredAgain(mode, fs[Resolve(host, fs, p).value].meta.mode);
    } else {
      DesiredAgain(mode, {});
    }
    if needs == Some(true) {
      var q := Resolve(host, fs, p).value;
      SettingNothing(fs, q, mode, d, uid, gid);
    } else if p in fs && !fs[p].kind.Link? {
      assert !Differs(fs[p].meta, d, uid, gid);
    }
  }

  lemma SettingNothing(fs: Tree, q: Path, mode: string, d: Mode.FileMode, uid: Option<Id>, gid: Option<Id>)
    requires q in fs
    ensures var m := if mode == "" then fs[q].meta else fs[q].meta.(mode := d.perm);
            fs[q := Node(fs[q].kind, Owned(m, uid, gid))] == fs <==> AlreadySo(fs[q].meta, mode, d, uid, gid)
  {
    var m := if mode == "" then fs[q].meta else fs[q].meta.(mode := d.perm);
    var gs := fs[q := Node(fs[q].kind, Owned(m, uid, gid))];
    assert gs == fs ==> gs[q] == fs[q];
  }

  lemma NodeHonest(n: Node, mode: string, uid: Option<Id>, gid: Option<Id>)
    requires NodeNeeds(n, mode, uid, gid)
    ensures NodeFixed(n, mode, uid, gid) == n <==>
              && !n.kind.Link? && Oversize(mode) && !OwnerDiffers(n.meta, uid, gid)
              && n.meta.mode == Mode.FromNumber(ModeText.ParseUint(mode).value).perm
  {
    if !n.kind.Link? && NodeDesired(mode, n.meta.mode).Some? {
      DesiredAgain(mode, n.meta.mode);
    }
  }

  lemma OversizeNeeds(n: Node, mode: string, uid: Option<Id>, gid: Option<Id>)
    requires Oversize(mode) && !n.kind.Link?
    ensures NodeNeeds(n, mode, uid, gid)
  {
    DesiredAgain(mode, n.meta.mode);
  }

  lemma TreeHonest(fs: Tree, root: Path, mode: string, uid: Option<Id>, gid: Option<Id>)
    requires Valid(fs) && root in fs
    ensures TreeNeeds(fs, root, mode, uid, gid) && FixTree(fs, root, mode, uid, gid) == fs <==>
            IdleTree(fs, root, mode, uid, gid)
  {
    var gs := FixTree(fs, root, mode, uid, gid);
    if IdleTree(fs, root, mode, uid, gid) {
      OversizeNeeds(fs[root], mode, uid, gid);
      forall p | p in fs ensures gs[p] == fs[p] {
        if NodeNeeds(fs[p], mode, uid, gid) { NodeHonest(fs[p], mode, uid, gid); }
      }
    }
    if TreeNeeds(fs, root, mode, uid, gid) && gs == fs {
      var p :| p in fs && root <= p && NodeNeeds(fs[p], mode, uid, gid);
      assert gs[p] == fs[p];
      NodeHonest(fs[p], mode, uid, gid);
      if p != root { AncestorsAreDirs(fs, root, p); }
      forall q | q in fs && root <= q
        ensures !OwnerDiffers(fs[q].meta, uid, gid)
        ensures fs[q].kind.Link? || fs[q].meta.mode == Mode.FromNumber(ModeText.ParseUint(mode).value).perm
      {
        assert gs[q] == fs[q];
        if NodeNeeds(fs[q], mode, uid, gid) {
          NodeHonest(fs[q], mode, uid, gid);
        } else if !fs[q].kind.Link? {
          OversizeNeeds(fs[q], mode, uid, gid);
        }
      }
    }
  }

  lemma SettleHonest(host: Host, fs: Tree, f: File, uid: Option<Id>, gid: Option<Id>)
    requires Settle(host, fs, f, uid, gid, false).outcome.Success?
    ensures var r := Settle(host, fs, f, uid, gid, false);
            && (!r.outcome.changed ==> r.fs == fs)
            && (r.outcome.changed && r.fs == fs <==> IdleFix(host, fs, f.path, ModeOf(f), uid, gid))
  {
    FixHonest(host, fs, f.path, ModeOf(f), uid, gid);
  }

  lemma DirectoryHonest(host: Host, fs: Tree, f: File, uid: Option<Id>, gid: Option<Id>)
    requires Valid(fs) && RunDirectory(host, fs, f, uid, gid).outcome.Success?
    ensures var r := RunDirectory(host, fs, f, uid, gid);
            && (!r.outcome.changed ==> r.fs == fs)
            && (r.outcome.changed && r.fs == fs <==>
                f.path in fs && if f.recurse then IdleTree(fs, f.path, ModeOf(f), uid, gid)
                                else IdleFix(host, fs, f.path, ModeOf(f), uid, gid))
  {
    MkdirAllLeadsToDir(host, fs, f.path);
    if f.path !in fs {
      assert f.path in RunDirectory(host, fs, f, uid, gid).fs by {
        if f.recurse { RunDirectoryTree(host, fs, f, uid, gid); }
      }
    } else if f.recurse {
      RunDirectoryTree(host, fs, f, uid, gid);
      FixTreeShape(fs, f.path, ModeOf(f), uid, gid);
      TreeHonest(fs, f.path, ModeOf(f), uid, gid);
    } else {
      SettleHonest(host, fs, f, uid, gid);
    }
  }

  lemma LinkHonest(host: Host, fs: Tree, f: File, uid: Option<Id>, gid: Option<Id>)
    requires Valid(fs) && RunLink(host, fs, f, uid, gid).outcome.Success?
    ensures var r := RunLink(host, fs, f, uid, gid);
            && (!r.outcome.changed ==> r.fs == fs)
            && (r.outcome.changed && r.fs == fs <==>
                && f.follow != Some(false) && f.path in fs && fs[f.path].kind == Link(f.src)
                && IdleFix(host, fs, f.path, ModeOf(f), uid, gid))
  {
    LinkedKeepsValid(host, fs, f);
    if f.follow != Some(false) {
      FixHonest(host, Linked(host, fs, f).0, f.path, ModeOf(f), uid, gid);
      FixShape(host, Linked(host, fs, f).0, f.path, ModeOf(f), uid, gid);
    }
  }

  lemma TouchHonest(host: Host, fs: Tree, f: File, uid: Option<Id>, gid: Option<Id>)
    requires RunTouch(host, fs, f, uid, gid).outcome.Success?
    ensures var r := RunTouch(host, fs, f, uid, gid);
            && (!r.outcome.changed ==> r.fs == fs)
            && (r.outcome.changed && r.fs == fs <==> f.path in fs && IdleFix(host, fs, f.path, ModeOf(f), uid, gid))
  {
    if f.path in fs {
      SettleHonest(host, fs, f, uid, gid);
    } else {
      assert f.path in RunTouch(host, fs, f, uid, gid).fs;
    }
  }

  /**
   The flag, exactly: Changed=false means nothing changed, always; Changed=true is reported with
   nothing changed if and only if the task was `Idle` before the run.
   */
  lemma HonestFlag(host: Host, fs: Tree, f: File)
    requires Valid(fs) && Applying(host, fs, f).outcome.Success?
    ensures !Applying(host, fs, f).outcome.changed ==> Applying(host, fs, f).fs == fs
    ensures Applying(host, fs, f).outcome.changed && Applying(host, fs, f).fs == fs <==> Idle(host, fs, f)
  {
    var uid, gid := Uid(host, f), Gid(host, f);
    if f.state == "" {
      DirectoryHonest(host, fs, f, uid, gid);
    } else {
      Dispatch(host, fs, fs, f);
      if f.state == DIRECTORY {
        DirectoryHonest(host, fs, f, uid, gid);
      } else if f.state == LINK {
        LinkHonest(host, fs, f, uid, gid);
      } else if f.state == TOUCH {
        TouchHonest(host, fs, f, uid, gid);
      } else if f.state == FILE && ChecksOnePath(f) {
        SettleHonest(host, fs, f, uid, gid);
      } else if f.state == ABSENT && f.path in fs {
        assert f.path in Subtree(fs, f.path);
        assert f.path !in Remove(fs, f.path);
      }
    }
  }

  /** A stable task is never idle, so its flag is honest both ways. */
  lemma StableIsHonest(host: Host, fs: Tree, f: File)
    requires Valid(fs) && Applying(host, fs, f).outcome.Success? && Stable(host, fs, f)
    ensures Applying(host, fs, f).outcome.changed <==> Applying(host, fs, f).fs != fs
  {
    HonestFlag(host, fs, f);
    if f.state == LINK && f.path in fs && fs[f.path].kind == Link(f.src) {
      assert Linked(host, fs, f).0 == fs;
    }
  }

  // ---------------------------------------------------------------- recursion: attainment and frame

  /** What the walk leaves of one node. */
  lemma NodeAttains(n: Node, mode: string, uid: Option<Id>, gid: Option<Id>)
    ensures var m := NodeFixed(n, mode, uid, gid);
            && m.kind == n.kind
            && !OwnerDiffers(m.meta, uid, gid)
            && (uid.None? ==> m.meta.uid == n.meta.uid) && (gid.None? ==> m.meta.gid == n.meta.gid)
            && (n.kind.Link? || mode == "" ==> m.meta.mode == n.meta.mode)
            && (!n.kind.Link? && NodeGoal(n, mode) != Mode.NO_MODE ==> m.meta.mode == NodeGoal(n, mode).perm)
            && (!n.kind.Link? && mode != "" && NodeGoal(n, mode) == Mode.NO_MODE ==>
                  m.meta.mode == if OwnerDiffers(n.meta, uid, gid) then {} else n.meta.mode)
  {}

  /** The node the walk meets at `p`: the one that was there, or the directory just made. */
  function Met(host: Host, fs: Tree, p: Path): Node {
    if p in fs then fs[p] else host.NewDir(DIR_MODE)
  }

  /**
   After a successful recursive directory task: the paths are the old ones and the missing
   ancestors; everything at or under the path has been visited, links without their targets; a
   missing ancestor is a plain new directory; everything else is as it was.
   */
  lemma RecursiveAttainmentAndFrame(host: Host, fs: Tree, f: File)
    requires Valid(fs) && f.state == DIRECTORY && f.recurse && Applying(host, fs, f).outcome.Success?
    ensures var gs := Applying(host, fs, f).fs;
            && gs.Keys == fs.Keys + MissingDirs(fs, f.path)
            && (forall p :: p in gs && f.path <= p ==>
                  gs[p] == NodeFixed(Met(host, fs, p), ModeOf(f), Uid(host, f), Gid(host, f)))
            && (forall p :: p in gs && !(f.path <= p) ==> gs[p] == Met(host, fs, p))
    ensures f.path in fs ==> MissingDirs(fs, f.path) == {}
  {
    Dispatch(host, fs, fs, f);
    MkdirAllLeadsToDir(host, fs, f.path);
    RunDirectoryTree(host, fs, f, Uid(host, f), Gid(host, f));
    if f.path in fs {
      NoMissingDirs(fs, f.path);
    }
  }
}
