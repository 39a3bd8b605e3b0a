/**
 The part of an operating system that the `file` module and the archiver use: a tree of
 directories, regular files and symbolic links with permissions and owners, and the system
 calls on it. The process runs as root.
 */
module FileSystem {
  import opened Prelude
  import Mode

  type Path = seq<string>
  type Id = nat

  datatype Meta = Meta(mode: Mode.Perm, uid: Id, gid: Id)

  datatype Kind = Dir | Reg(data: string) | Link(target: string)
  datatype Node = Node(kind: Kind, meta: Meta)

  type Tree = map<Path, Node>

  /** The process and its surroundings: identity, umask, where the text of a link leads, and the accounts. */
  datatype Host = Host(uid: Id, gid: Id, umask: Mode.Perm, locate: (Path, string) -> Path,
                       uidOf: string -> Option<Id>, gidOf: string -> Option<Id>) {
    function NewMeta(mode: Mode.Perm): Meta { Meta(mode - umask, uid, gid) }
    function NewDir(mode: Mode.Perm): Node { Node(Dir, NewMeta(mode)) }
    /** The permissions of a symbolic link are always 0777. */
    function NewLink(target: string): Node { Node(Link(target), Meta(Mode.ALL, uid, gid)) }
  }

  /** The permissions 0755 and 0666 that the source passes to the system calls. */
  const DIR_MODE: Mode.Perm := Mode.ALL - Mode.Bits({Mode.Group, Mode.Other}, {Mode.Write})
  const FILE_MODE: Mode.Perm := Mode.Bits(Mode.EVERYBODY, {Mode.Read, Mode.Write})

  function Parent(p: Path): Path
    requires p != []
  {
    p[..|p| - 1]
  }

  predicate IsDir(fs: Tree, p: Path) {
    p in fs && fs[p].kind.Dir?
  }

  /** Every node hangs from a directory. */
  ghost predicate Valid(fs: Tree) {
    && IsDir(fs, [])
    && (forall p :: p in fs && p != [] ==> IsDir(fs, Parent(p)))
  }

  lemma {:induction false} AncestorsAreDirs(fs: Tree, q: Path, p: Path)
    requires Valid(fs) && p in fs && q < p
    ensures IsDir(fs, q)
  {
    if q != Parent(p) {
      AncestorsAreDirs(fs, q, Parent(p));
    }
  }

  function At(fs: Tree, p: Path): Option<Node> {
    if p in fs then Some(fs[p]) else None
  }

  function Subtree(fs: Tree, root: Path): set<Path> {
    set p | p in fs && root <= p
  }

  // ---------------------------------------------------------------- names and links

  /** What looking a path up says: a node, nothing there, or an ancestor that is no directory. */
  datatype Lookup = Found(node: Node) | Missing | Blocked

  function Lstat(fs: Tree, p: Path): Lookup {
    if p in fs then Found(fs[p])
    else if p == [] then Missing
    else
      match Lstat(fs, Parent(p))
      case Found(n) => if n.kind.Dir? then Missing else Blocked
      case Missing => Missing
      case Blocked => Blocked
  }

  const MAX_LINKS: nat := 40

  /** Where a path leads when links are followed, giving up after `fuel` of them. */
  function Follow(host: Host, fs: Tree, p: Path, fuel: nat): Option<Path>
    decreases fuel
  {
    if p !in fs then None
    else if !fs[p].kind.Link? then Some(p)
    else if fuel == 0 then None
    else Follow(host, fs, host.locate(p, fs[p].kind.target), fuel - 1)
  }

  function Resolve(host: Host, fs: Tree, p: Path): (r: Option<Path>)
    ensures r.Some? ==> r.value in fs && !fs[r.value].kind.Link?
    ensures p in fs && !fs[p].kind.Link? ==> r == Some(p)
  {
    FollowEndsAtNoLink(host, fs, p, MAX_LINKS);
    Follow(host, fs, p, MAX_LINKS)
  }

  lemma {:induction false} FollowEndsAtNoLink(host: Host, fs: Tree, p: Path, fuel: nat)
    ensures var r := Follow(host, fs, p, fuel); r.Some? ==> r.value in fs && !fs[r.value].kind.Link?
    decreases fuel
  {
    if p in fs && fs[p].kind.Link? && fuel > 0 {
      FollowEndsAtNoLink(host, fs, host.locate(p, fs[p].kind.target), fuel - 1);
    }
  }

  /**
   Where a path really leads: links are followed at every component, the last one too, even to a
   name that is free. With it comes how many more links may be followed; `None` when there are too many.
   */
  function Enter(host: Host, fs: Tree, p: Path, fuel: nat): (r: Option<(Path, nat)>)
    ensures r.Some? ==> r.value.1 <= fuel
    decreases fuel, |p|
  {
    if p == [] then Some(([], fuel))
    else
      match Enter(host, fs, Parent(p), fuel)
      case None => None
      case Some((dir, left)) =>
        var q := dir + [Last(p)];
        if q !in fs || !fs[q].kind.Link? then Some((q, left))
        else if left == 0 then None
        else Enter(host, fs, host.locate(q, fs[q].kind.target), left - 1)
  }

  function Last(p: Path): string
    requires p != []
  {
    p[|p| - 1]
  }

  function Real(host: Host, fs: Tree, p: Path): Option<Path> {
    match Enter(host, fs, p, MAX_LINKS)
    case None => None
    case Some((q, _)) => Some(q)
  }

  /** The same, but that a link of this very name is not followed. */
  function RealName(host: Host, fs: Tree, p: Path): Option<Path>
    requires p != []
  {
    match Real(host, fs, Parent(p))
    case None => None
    case Some(dir) => Some(dir + [Last(p)])
  }

  /** A path with no links on it leads to itself. */
  lemma {:induction false} EnterPlain(host: Host, fs: Tree, p: Path, fuel: nat)
    requires forall k :: 0 <= k <= |p| && p[..k] in fs ==> !fs[p[..k]].kind.Link?
    ensures Enter(host, fs, p, fuel) == Some((p, fuel))
    decreases |p|
  {
    if p != [] {
      forall k | 0 <= k <= |Parent(p)| ensures Parent(p)[..k] == p[..k] {}
      EnterPlain(host, fs, Parent(p), fuel);
      assert Parent(p) + [Last(p)] == p && p[..|p|] == p;
    }
  }

  /** The same symbolic links, whatever else there is. */
  ghost predicate SameLinks(fs: Tree, gs: Tree) {
    forall p :: (p in fs && fs[p].kind.Link?) || (p in gs && gs[p].kind.Link?) ==>
      p in fs && p in gs && fs[p].kind == gs[p].kind
  }

  lemma {:induction false} SameLinksEnter(host: Host, fs: Tree, gs: Tree, p: Path, fuel: nat)
    requires SameLinks(fs, gs)
    ensures Enter(host, fs, p, fuel) == Enter(host, gs, p, fuel)
    decreases fuel, |p|
  {
    if p != [] {
      SameLinksEnter(host, fs, gs, Parent(p), fuel);
      var r := Enter(host, fs, Parent(p), fuel);
      if r.Some? {
        var q := r.value.0 + [Last(p)];
        if q in fs && fs[q].kind.Link? && r.value.1 > 0 {
          SameLinksEnter(host, fs, gs, host.locate(q, fs[q].kind.target), r.value.1 - 1);
        }
      }
    }
  }

  /** Two trees with the same links resolve paths alike. */
  ghost predicate SameShape(fs: Tree, gs: Tree) {
    && fs.Keys == gs.Keys
    && (forall p :: p in fs ==>
        fs[p].kind.Link? == gs[p].kind.Link? && (fs[p].kind.Link? ==> fs[p].kind.target == gs[p].kind.target))
  }

  lemma {:induction false} SameShapeFollow(host: Host, fs: Tree, gs: Tree, p: Path, fuel: nat)
    requires SameShape(fs, gs)
    ensures Follow(host, fs, p, fuel) == Follow(host, gs, p, fuel)
    decreases fuel
  {
    if p in fs && fs[p].kind.Link? && fuel > 0 {
      SameShapeFollow(host, fs, gs, host.locate(p, fs[p].kind.target), fuel - 1);
    }
  }

  // ---------------------------------------------------------------- the effect of the system calls

  /** An owner change: `None` stands for -1, "leave as it is". */
  function Owned(m: Meta, uid: Option<Id>, gid: Option<Id>): Meta {
    Meta(m.mode, if uid.Some? then uid.value else m.uid, if gid.Some? then gid.value else m.gid)
  }

  function Chmod(host: Host, fs: Tree, p: Path, mode: Mode.FileMode): Option<Tree> {
    match Resolve(host, fs, p)
    case None => None
    case Some(q) => Some(fs[q := fs[q].(meta := fs[q].meta.(mode := mode.perm))])
  }

  function Chown(host: Host, fs: Tree, p: Path, uid: Option<Id>, gid: Option<Id>): Option<Tree> {
    match Resolve(host, fs, p)
    case None => None
    case Some(q) => Some(fs[q := fs[q].(meta := Owned(fs[q].meta, uid, gid))])
  }

  function Lchown(fs: Tree, p: Path, uid: Option<Id>, gid: Option<Id>): Option<Tree> {
    if p in fs then Some(fs[p := fs[p].(meta := Owned(fs[p].meta, uid, gid))]) else None
  }

  /** Creating a node needs a free name in a directory. */
  function Create(fs: Tree, p: Path, n: Node): Option<Tree> {
    if p != [] && p !in fs && IsDir(fs, Parent(p)) then Some(fs[p := n]) else None
  }

  lemma CreateKeepsValid(fs: Tree, p: Path, n: Node)
    requires Valid(fs)
    ensures Create(fs, p, n).Some? ==> Valid(Create(fs, p, n).value)
  {}

  /** The directories `MkdirAll` has to make for `p`. */
  function MissingDirs(fs: Tree, p: Path): set<Path> {
    set k | 0 <= k <= |p| && p[..k] !in fs :: p[..k]
  }

  /**
   `os.MkdirAll`: nothing when `p` leads to a directory, else every missing directory down to `p`;
   it fails, without effect, when `p` or an ancestor is something else.
   */
  function MkdirAll(host: Host, fs: Tree, p: Path, mode: Mode.Perm): Option<Tree> {
    if p in fs then
      var r := Resolve(host, fs, p);
      if r.Some? && fs[r.value].kind.Dir? then Some(fs) else None
    else if Lstat(fs, p).Missing? then Some(fs + map q | q in MissingDirs(fs, p) :: host.NewDir(mode))
    else None
  }

  function Remove(fs: Tree, root: Path): Tree {
    fs - Subtree(fs, root)
  }

  // ---------------------------------------------------------------- walking a subtree

  /** Among the paths still to visit, one none of whose ancestors is: what a walk may visit next. */
  predicate Next(todo: set<Path>, p: Path) {
    p in todo && forall q :: q in todo ==> !(q < p)
  }

  lemma {:induction false} NextExists(todo: set<Path>) returns (p: Path)
    requires todo != {}
    ensures Next(todo, p)
    ensures forall q :: q in todo ==> |p| <= |q|
  {
    p :| p in todo;
    if todo != {p} {
      var q := NextExists(todo - {p});
      if |q| < |p| { p := q; }
    }
  }

  // ---------------------------------------------------------------- the machine

  class Machine {
    const host: Host
    var fs: Tree

    constructor (host: Host, fs: Tree)
      ensures this.host == host && this.fs == fs
    {
      this.host := host;
      this.fs := fs;
    }

    method ChmodPath(p: Path, mode: Mode.FileMode) returns (r: Status)
      modifies this
      ensures match Chmod(host, old(fs), p, mode)
              case Some(gs) => r.Done? && fs == gs
              case None => r.Fail? && fs == old(fs)
    {
      var q := Resolve(host, fs, p);
      if q.None? { return Fail; }
      fs := fs[q.value := fs[q.value].(meta := fs[q.value].meta.(mode := mode.perm))];
      return Done;
    }

    method ChownPath(p: Path, uid: Option<Id>, gid: Option<Id>) returns (r: Status)
      modifies this
      ensures match Chown(host, old(fs), p, uid, gid)
              case Some(gs) => r.Done? && fs == gs
              case None => r.Fail? && fs == old(fs)
    {
      var q := Resolve(host, fs, p);
      if q.None? { return Fail; }
      fs := fs[q.value := fs[q.value].(meta := Owned(fs[q.value].meta, uid, gid))];
      return Done;
    }

    method LchownPath(p: Path, uid: Option<Id>, gid: Option<Id>) returns (r: Status)
      modifies this
      ensures match Lchown(old(fs), p, uid, gid)
              case Some(gs) => r.Done? && fs == gs
              case None => r.Fail? && fs == old(fs)
    {
      if p !in fs { return Fail; }
      fs := fs[p := fs[p].(meta := Owned(fs[p].meta, uid, gid))];
      return Done;
    }

    /** `os.Mkdir`, `os.Symlink` and `os.Create` on a free name. */
    method CreateNode(p: Path, n: Node) returns (r: Status)
      modifies this
      ensures match Create(old(fs), p, n) case Some(gs) => r.Done? && fs == gs case None => r.Fail? && fs == old(fs)
    {
      if p == [] || p in fs || !IsDir(fs, Parent(p)) { return Fail; }
      fs := fs[p := n];
      return Done;
    }

    method MkdirAllPath(p: Path, mode: Mode.Perm) returns (r: Status)
      requires Valid(fs)
      modifies this
      ensures match MkdirAll(host, old(fs), p, mode)
              case Some(gs) => r.Done? && fs == gs
              case None => r.Fail? && fs == old(fs)
      decreases |p|
    {
      var q := Resolve(host, fs, p);
      if q.Some? {
        return if fs[q.value].kind.Dir? then Done else Fail;
      }
      MkdirAllStep(host, fs, p, mode);
      r := MkdirAllPath(Parent(p), mode);
      if r.Done? {
        r := CreateNode(p, host.NewDir(mode));
      }
    }
  }

  /** When `p` leads nowhere, making it is making its parent, then `p` in that. */
  lemma MkdirAllStep(host: Host, fs: Tree, p: Path, mode: Mode.Perm)
    requires Valid(fs) && Resolve(host, fs, p).None?
    ensures p != []
    ensures MkdirAll(host, fs, p, mode) ==
            match MkdirAll(host, fs, Parent(p), mode)
            { case None => None case Some(gs) => Create(gs, p, host.NewDir(mode)) }
    ensures MkdirAll(host, fs, p, mode).None? ==>
        MkdirAll(host, fs, Parent(p), mode).None? || MkdirAll(host, fs, Parent(p), mode) == Some(fs)
  {
    if p in fs {
      AncestorsAreDirs(fs, Parent(p), p);
    } else if Parent(p) in fs {
      MkdirAllInPlace(host, fs, p, mode);
    } else {
      MkdirAllDeep(host, fs, p, mode);
    }
  }

  lemma MkdirAllInPlace(host: Host, fs: Tree, p: Path, mode: Mode.Perm)
    requires Valid(fs) && p != [] && p !in fs && Parent(p) in fs
    ensures MkdirAll(host, fs, p, mode) == Create(fs, p, host.NewDir(mode))
  {
    MissingDirsStep(fs, p);
    NoMissingDirs(fs, Parent(p));
    assert Lstat(fs, Parent(p)) == Found(fs[Parent(p)]);
    if IsDir(fs, Parent(p)) {
      assert MkdirAll(host, fs, p, mode).value == fs[p := host.NewDir(mode)];
    }
  }

  lemma MkdirAllDeep(host: Host, fs: Tree, p: Path, mode: Mode.Perm)
    requires Valid(fs) && p != [] && p !in fs && Parent(p) !in fs
    ensures MkdirAll(host, fs, p, mode).Some? <==> MkdirAll(host, fs, Parent(p), mode).Some?
    ensures MkdirAll(host, fs, p, mode).Some? ==>
              Create(MkdirAll(host, fs, Parent(p), mode).value, p, host.NewDir(mode)) == MkdirAll(host, fs, p, mode)
  {
    var up := Parent(p);
    MissingDirsStep(fs, p);
    if Lstat(fs, up).Missing? {
      var gs := MkdirAll(host, fs, up, mode).value;
      assert up == up[..|up|] && up in MissingDirs(fs, up);
      MissingDirsAreShorter(fs, up, p);
      AddOneDir(host, fs, MissingDirs(fs, up), p, mode);
    }
  }

  lemma AddOneDir(host: Host, fs: Tree, dirs: set<Path>, p: Path, mode: Mode.Perm)
    ensures fs + (map q | q in dirs + {p} :: host.NewDir(mode))
        == (fs + (map q | q in dirs :: host.NewDir(mode)))[p := host.NewDir(mode)]
  {}

  lemma MissingDirsAreShorter(fs: Tree, up: Path, p: Path)
    requires |up| < |p|
    ensures p !in MissingDirs(fs, up)
  {}

  lemma MissingDirsStep(fs: Tree, p: Path)
    requires p != [] && p !in fs
    ensures MissingDirs(fs, p) == MissingDirs(fs, Parent(p)) + {p}
  {
    var up := Parent(p);
    assert p[..|p|] == p;
    forall k | 0 <= k < |p| ensures p[..k] == up[..k] {}
    forall q | q in MissingDirs(fs, p) ensures q in MissingDirs(fs, up) + {p} {
      var k :| 0 <= k <= |p| && p[..k] !in fs && q == p[..k];
      if k < |p| { assert q == up[..k]; }
    }
    forall q | q in MissingDirs(fs, up) ensures q in MissingDirs(fs, p) {
      var k :| 0 <= k <= |up| && up[..k] !in fs && q == up[..k];
      assert q == p[..k];
    }
  }

  lemma NoMissingDirs(fs: Tree, p: Path)
    requires Valid(fs) && p in fs
    ensures MissingDirs(fs, p) == {}
  {
    forall k | 0 <= k <= |p| ensures p[..k] in fs {
      if k < |p| { AncestorsAreDirs(fs, p[..k], p); } else { assert p[..k] == p; }
    }
  }

  lemma MkdirAllKeepsValid(host: Host, fs: Tree, p: Path, mode: Mode.Perm)
    requires Valid(fs) && MkdirAll(host, fs, p, mode).Some?
    ensures Valid(MkdirAll(host, fs, p, mode).value)
    ensures p in MkdirAll(host, fs, p, mode).value
    decreases |p|
  {
    if Resolve(host, fs, p).None? {
      MkdirAllStep(host, fs, p, mode);
      MkdirAllKeepsValid(host, fs, Parent(p), mode);
    }
  }

  lemma MkdirAllEffect(host: Host, fs: Tree, p: Path, mode: Mode.Perm)
    requires Valid(fs) && MkdirAll(host, fs, p, mode).Some?
    ensures forall x :: At(MkdirAll(host, fs, p, mode).value, x) ==
                        if x <= p && x !in fs then Some(host.NewDir(mode)) else At(fs, x)
  {
    if p in fs {
      NoMissingDirs(fs, p);
    }
    var gs := MkdirAll(host, fs, p, mode).value;
    forall x ensures At(gs, x) == if x <= p && x !in fs then Some(host.NewDir(mode)) else At(fs, x) {
      if x <= p && x !in fs {
        assert x == p[..|x|];
        assert x in MissingDirs(fs, p);
      }
    }
  }
}
