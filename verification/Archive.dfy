/** `Tar` and `Untar`: a tree as a sequence of entries, and the replay of entries into a file system. */
module Archive {
  import opened Prelude
  import Mode
  import opened FileSystem

  /** An entry's header and, for a regular file, its data. The name is relative to where the archived tree hangs. */
  datatype Entry = Entry(name: Path, kind: Kind, mode: Mode.Perm)

  /** `filepath.Dir`. */
  function Up(p: Path): Path {
    if p == [] then [] else Parent(p)
  }

  function EntryOf(fs: Tree, src: Path, p: Path): Entry
    requires p in Subtree(fs, src)
  {
    Entry(p[|Up(src)|..], fs[p].kind, fs[p].meta.mode)
  }

  // ---------------------------------------------------------------- writing

  /** The entries are those of the tree at `src`, each once. */
  ghost predicate Lists(fs: Tree, src: Path, es: seq<Entry>) {
    && (forall i :: 0 <= i < |es| ==>
        Up(src) + es[i].name in Subtree(fs, src) && es[i] == EntryOf(fs, src, Up(src) + es[i].name))
    && (forall i, j :: 0 <= i < j < |es| ==> es[i].name != es[j].name)
    && (forall p :: p in Subtree(fs, src) ==> exists i :: 0 <= i < |es| && es[i].name == p[|Up(src)|..])
  }

  ghost predicate AncestorsFirst(es: seq<Entry>) {
    forall i, j :: 0 <= i < j < |es| ==> !(es[j].name < es[i].name)
  }

  /** `Tar`: the walk visits every node of the tree, a directory before what is in it. */
  method Tar(fs: Tree, src: Path) returns (r: Option<seq<Entry>>)
    ensures r.Some? <==> src in fs
    ensures r.Some? ==> Lists(fs, src, r.value) && AncestorsFirst(r.value)
  {
    if src !in fs { return None; }
    var todo := Subtree(fs, src);
    var es: seq<Entry> := [];
    ghost var walked: seq<Path> := [];
    while todo != {}
      invariant Walk(Subtree(fs, src), todo, walked)
      invariant |es| == |walked| && forall i :: 0 <= i < |es| ==> es[i] == EntryOf(fs, src, walked[i])
      decreases |todo|
    {
      ghost var q := NextExists(todo);
      var p :| Next(todo, p);
      assert Next(todo, p) && p in todo;
      WalkStep(Subtree(fs, src), todo, walked, p);
      es := es + [EntryOf(fs, src, p)];
      walked := walked + [p];
      todo := todo - {p};
    }
    WalkLists(fs, src, walked, es);
    return Some(es);
  }

  /** A walk under way: what it has visited, in order, and what it has still to visit. */
  ghost predicate Walk(all: set<Path>, todo: set<Path>, walked: seq<Path>) {
    && todo <= all
    && (forall p :: p in all <==> p in todo || p in walked)
    && (forall i, j :: 0 <= i < j < |walked| ==> walked[i] != walked[j] && !(walked[j] < walked[i]))
    && (forall p, q :: p in todo && q in walked ==> p != q && !(p < q))
  }

  lemma WalkStep(all: set<Path>, todo: set<Path>, walked: seq<Path>, p: Path)
    requires Walk(all, todo, walked) && Next(todo, p)
    ensures p in all && Walk(all, todo - {p}, walked + [p])
  {
    forall i | 0 <= i < |walked| ensures walked[i] != p && !(p < walked[i]) {
      assert walked[i] in walked;
    }
  }

  lemma WalkLists(fs: Tree, src: Path, walked: seq<Path>, es: seq<Entry>)
    requires Walk(Subtree(fs, src), {}, walked)
    requires |es| == |walked| && forall i :: 0 <= i < |es| ==>
        walked[i] in walked && es[i] == EntryOf(fs, src, walked[i])
    ensures Lists(fs, src, es) && AncestorsFirst(es)
  {
    forall i | 0 <= i < |es| ensures Up(src) + es[i].name == walked[i] {}
    forall i, j | 0 <= i < j < |es| ensures es[i].name != es[j].name && !(es[j].name < es[i].name) {
      assert walked[i] == Up(src) + es[i].name && walked[j] == Up(src) + es[j].name;
    }
    forall p | p in Subtree(fs, src) ensures exists i :: 0 <= i < |es| && es[i].name == p[|Up(src)|..] {
      var i :| 0 <= i < |walked| && walked[i] == p;
    }
  }

  // ---------------------------------------------------------------- replaying

  /** `filepath.Join`: the joined path is cleaned, so that `..` takes back the component before it. */
  function Join(dest: Path, name: seq<string>): Path {
    if name == [] then dest
    else
      var before, c := Join(dest, name[..|name| - 1]), name[|name| - 1];
      if c == "" || c == "." then before else if c == ".." then Up(before) else before + [c]
  }

  predicate Plain(name: seq<string>) {
    forall k :: 0 <= k < |name| ==> name[k] != "" && name[k] != "." && name[k] != ".."
  }

  lemma {:induction false} JoinPlain(dest: Path, name: seq<string>)
    requires Plain(name)
    ensures Join(dest, name) == dest + name
  {
    if name != [] {
      JoinPlain(dest, name[..|name| - 1]);
      assert name == name[..|name| - 1] + [name[|name| - 1]];
    }
  }

  /**
   `os.MkdirAll`, wherever links on the way lead: nothing when a directory is there already, else
   the parent first and then the directory itself, which takes no link for its name.
   */
  function MkdirAllThrough(host: Host, fs: Tree, p: Path, mode: Mode.Perm): (Tree, bool)
    decreases |p|
  {
    var there := Real(host, fs, p);
    if there.Some? && there.value in fs then (fs, fs[there.value].kind.Dir?)
    else if p == [] then (fs, false)
    else
      var (gs, ok) := MkdirAllThrough(host, fs, Parent(p), mode);
      if ok then CreateThrough(host, gs, p, host.NewDir(mode)) else (gs, false)
  }

  /** `os.Mkdir` and `os.Symlink`. */
  function CreateThrough(host: Host, fs: Tree, p: Path, n: Node): (Tree, bool) {
    if p == [] || RealName(host, fs, p).None? then (fs, false)
    else
      match Create(fs, RealName(host, fs, p).value, n)
      case None => (fs, false)
      case Some(gs) => (gs, true)
  }

  /** Opening with `O_CREATE|O_RDWR|O_TRUNC` and writing: an existing file keeps its permissions and owner. */
  function WriteFile(host: Host, fs: Tree, p: Path, data: string, mode: Mode.Perm): (Tree, bool) {
    match Real(host, fs, p)
    case None => (fs, false)
    case Some(q) =>
      if q in fs then
        if fs[q].kind.Reg? then (fs[q := fs[q].(kind := Reg(data))], true) else (fs, false)
      else
        match Create(fs, q, Node(Reg(data), host.NewMeta(mode)))
        case None => (fs, false)
        case Some(gs) => (gs, true)
  }

  /** A link or a file, where its directory is. */
  function PutLeaf(host: Host, fs: Tree, target: Path, e: Entry): (Tree, bool) {
    match e.kind
    case Reg(data) => WriteFile(host, fs, target, data, e.mode)
    case Link(to) => if to == "" then (fs, false) else CreateThrough(host, fs, target, host.NewLink(to))
    case Dir => (fs, true)
  }

  /** One entry replayed, up to the first error. */
  function Put(host: Host, fs: Tree, dest: Path, e: Entry): (Tree, bool) {
    var target := Join(dest, e.name);
    if e.kind.Dir? then MkdirAllThrough(host, fs, target, e.mode)
    else
      var (gs, ok) := MkdirAllThrough(host, fs, Up(target), DIR_MODE);
      if ok then PutLeaf(host, gs, target, e) else (gs, false)
  }

  /** The entries replayed in order; an error ends it. */
  function Replay(host: Host, fs: Tree, dest: Path, es: seq<Entry>): (Tree, bool) {
    if es == [] then (fs, true)
    else
      var (gs, ok) := Replay(host, fs, dest, es[..|es| - 1]);
      if ok then Put(host, gs, dest, es[|es| - 1]) else (gs, false)
  }

  lemma CreateThroughKeepsValid(host: Host, fs: Tree, p: Path, n: Node)
    requires Valid(fs)
    ensures Valid(CreateThrough(host, fs, p, n).0)
  {
    if p != [] && RealName(host, fs, p).Some? {
      CreateKeepsValid(fs, RealName(host, fs, p).value, n);
    }
  }

  lemma {:induction false} MkdirAllThroughKeepsValid(host: Host, fs: Tree, p: Path, mode: Mode.Perm)
    requires Valid(fs)
    ensures Valid(MkdirAllThrough(host, fs, p, mode).0)
    decreases |p|
  {
    if p != [] {
      MkdirAllThroughKeepsValid(host, fs, Parent(p), mode);
      CreateThroughKeepsValid(host, MkdirAllThrough(host, fs, Parent(p), mode).0, p, host.NewDir(mode));
    }
  }

  lemma WriteFileKeepsValid(host: Host, fs: Tree, p: Path, data: string, mode: Mode.Perm)
    requires Valid(fs)
    ensures Valid(WriteFile(host, fs, p, data, mode).0)
  {
    var q := Real(host, fs, p);
    if q.Some? && q.value !in fs {
      CreateKeepsValid(fs, q.value, Node(Reg(data), host.NewMeta(mode)));
    }
  }

  lemma PutKeepsValid(host: Host, fs: Tree, dest: Path, e: Entry)
    requires Valid(fs)
    ensures Valid(Put(host, fs, dest, e).0)
  {
    var target := Join(dest, e.name);
    MkdirAllThroughKeepsValid(host, fs, target, e.mode);
    MkdirAllThroughKeepsValid(host, fs, Up(target), DIR_MODE);
    var gs := MkdirAllThrough(host, fs, Up(target), DIR_MODE).0;
    match e.kind {
      case Reg(data) => WriteFileKeepsValid(host, gs, target, data, e.mode);
      case Link(to) => CreateThroughKeepsValid(host, gs, target, host.NewLink(to));
      case Dir =>
    }
  }

  lemma {:induction false} FailedStaysFailed(host: Host, fs: Tree, dest: Path, es: seq<Entry>, i: nat)
    requires i <= |es| && !Replay(host, fs, dest, es[..i]).1
    ensures Replay(host, fs, dest, es) == Replay(host, fs, dest, es[..i])
  {
    if i == |es| {
      assert es[..i] == es;
    } else {
      assert es[..|es| - 1][..i] == es[..i];
      FailedStaysFailed(host, fs, dest, es[..|es| - 1], i);
    }
  }

  method MkdirThrough(m: Machine, p: Path, mode: Mode.Perm) returns (r: Status)
    modifies m
    ensures (m.fs, r.Done?) == MkdirAllThrough(m.host, old(m.fs), p, mode)
    decreases |p|
  {
    var there := Real(m.host, m.fs, p);
    if there.Some? && there.value in m.fs {
      return if m.fs[there.value].kind.Dir? then Done else Fail;
    }
    if p == [] { return Fail; }
    r := MkdirThrough(m, Parent(p), mode);
    if r.Done? {
      r := MakeThrough(m, p, m.host.NewDir(mode));
    }
  }

  method MakeThrough(m: Machine, p: Path, n: Node) returns (r: Status)
    modifies m
    ensures (m.fs, r.Done?) == CreateThrough(m.host, old(m.fs), p, n)
  {
    if p == [] { return Fail; }
    var q := RealName(m.host, m.fs, p);
    if q.None? { return Fail; }
    r := m.CreateNode(q.value, n);
  }

  /** Overwriting, or creating, a regular file. */
  method Write(m: Machine, p: Path, data: string, mode: Mode.Perm) returns (r: Status)
    modifies m
    ensures (m.fs, r.Done?) == WriteFile(m.host, old(m.fs), p, data, mode)
  {
    var q := Real(m.host, m.fs, p);
    if q.None? { return Fail; }
    if q.value !in m.fs {
      r := m.CreateNode(q.value, Node(Reg(data), m.host.NewMeta(mode)));
      return;
    }
    if !m.fs[q.value].kind.Reg? { return Fail; }
    m.fs := m.fs[q.value := m.fs[q.value].(kind := Reg(data))];
    return Done;
  }

  /** The switch of `Untar` on the type of an entry. */
  method PutEntry(m: Machine, dest: Path, e: Entry) returns (r: Status)
    modifies m
    ensures (m.fs, r.Done?) == Put(m.host, old(m.fs), dest, e)
  {
    var target := Join(dest, e.name);
    match e.kind {
      case Dir =>
        r := MkdirThrough(m, target, e.mode);
      case Reg(data) =>
        r := MkdirThrough(m, Up(target), DIR_MODE);
        if r.Done? { r := Write(m, target, data, e.mode); }
      case Link(to) =>
        r := MkdirThrough(m, Up(target), DIR_MODE);
        if r.Done? {
          if to == "" { return Fail; }
          r := MakeThrough(m, target, m.host.NewLink(to));
        }
    }
  }

  /** `Untar`. */
  method Untar(m: Machine, dest: Path, es: seq<Entry>) returns (r: Status)
    modifies m
    ensures (m.fs, r.Done?) == Replay(m.host, old(m.fs), dest, es)
    ensures old(Valid(m.fs)) ==> Valid(m.fs)
  {
    for i := 0 to |es|
      invariant old(Valid(m.fs)) ==> Valid(m.fs)
      invariant (m.fs, true) == Replay(m.host, old(m.fs), dest, es[..i])
    {
      assert es[..i + 1][..i] == es[..i];
      if Valid(m.fs) { PutKeepsValid(m.host, m.fs, dest, es[i]); }
      r := PutEntry(m, dest, es[i]);
      if r.Fail? {
        FailedStaysFailed(m.host, old(m.fs), dest, es, i + 1);
        return;
      }
    }
    assert es[..|es|] == es;
    return Done;
  }

  // ---------------------------------------------------------------- what a replay builds

  /** Names are plain and distinct, and only directories have anything below them. */
  ghost predicate Treelike(es: seq<Entry>) {
    && (forall i :: 0 <= i < |es| ==> es[i].name != [] && Plain(es[i].name) && es[i].kind != Link(""))
    && (forall i, j :: 0 <= i < j < |es| ==> es[i].name != es[j].name)
    && (forall i, j :: 0 <= i < |es| && 0 <= j < |es| && es[i].name < es[j].name ==> es[i].kind.Dir?)
  }

  /** The permissions an entry gives to the directories missing on the way to it. */
  function OnTheWay(e: Entry): Mode.Perm {
    if e.kind.Dir? then e.mode else DIR_MODE
  }

  function Own(host: Host, e: Entry): Node {
    if e.kind.Link? then host.NewLink(e.kind.target) else Node(e.kind, host.NewMeta(e.mode))
  }

  /** What the replay puts at the relative name `q`: it is the first entry at or below `q` that does. */
  function Placed(host: Host, es: seq<Entry>, q: Path): Option<Node> {
    if es == [] then None
    else
      var before := Placed(host, es[..|es| - 1], q);
      var e := es[|es| - 1];
      if before.Some? then before
      else if e.name == q then Some(Own(host, e))
      else if q < e.name then Some(host.NewDir(OnTheWay(e)))
      else None
  }

  function Expected(host: Host, fs: Tree, dest: Path, es: seq<Entry>, p: Path): Option<Node> {
    if dest < p && Placed(host, es, p[|dest|..]).Some? then Placed(host, es, p[|dest|..]) else At(fs, p)
  }

  ghost predicate Built(host: Host, fs: Tree, dest: Path, es: seq<Entry>, gs: Tree) {
    forall p :: At(gs, p) == Expected(host, fs, dest, es, p)
  }

  /** The names the entries start with are free at `dest`. */
  ghost predicate Free(fs: Tree, dest: Path, es: seq<Entry>) {
    forall i :: 0 <= i < |es| && es[i].name != [] ==> dest + es[i].name[..1] !in fs
  }

  lemma {:induction false} PlacedBelow(host: Host, es: seq<Entry>, q: Path)
    ensures Placed(host, es, q).Some? <==> exists i :: 0 <= i < |es| && q <= es[i].name
  {
    if es != [] {
      PlacedBelow(host, es[..|es| - 1], q);
      if exists i :: 0 <= i < |es| && q <= es[i].name {
        var i :| 0 <= i < |es| && q <= es[i].name;
        if i < |es| - 1 { assert q <= es[..|es| - 1][i].name; }
      }
    }
  }

  /** `q` is made by the entry at `k` in `es`: the first at or below it. */
  ghost predicate FirstAt(es: seq<Entry>, q: Path, k: nat) {
    k < |es| && q <= es[k].name && forall j :: 0 <= j < k ==> !(q <= es[j].name)
  }

  lemma {:induction false} PlacedByFirst(host: Host, es: seq<Entry>, q: Path, k: nat)
    requires FirstAt(es, q, k)
    ensures Placed(host, es, q) == Some(if es[k].name == q then Own(host, es[k]) else host.NewDir(OnTheWay(es[k])))
  {
    var before := es[..|es| - 1];
    PlacedBelow(host, before, q);
    if k < |before| {
      assert before[k] == es[k];
      PlacedByFirst(host, before, q, k);
    } else {
      forall i | 0 <= i < |before| ensures !(q <= before[i].name) { assert before[i] == es[i]; }
    }
  }

  // ---------------------------------------------------------------- one step of it

  /** A free name whose existing ancestors are directories can be made. */
  lemma {:induction false} FreeIsMissing(fs: Tree, p: Path)
    requires Valid(fs) && p !in fs
    requires forall k :: 0 <= k < |p| && p[..k] in fs ==> IsDir(fs, p[..k])
    ensures Lstat(fs, p).Missing?
    decreases |p|
  {
    var up := Parent(p);
    forall k | 0 <= k < |up| ensures up[..k] == p[..k] {}
    if up !in fs {
      FreeIsMissing(fs, up);
    } else {
      assert up == p[..|p| - 1];
    }
  }

  lemma MkdirAllMakes(host: Host, fs: Tree, p: Path, mode: Mode.Perm)
    requires Valid(fs) && forall k :: 0 <= k <= |p| && p[..k] in fs ==> IsDir(fs, p[..k])
    ensures MkdirAll(host, fs, p, mode).Some?
    ensures Valid(MkdirAll(host, fs, p, mode).value)
    ensures forall x :: At(MkdirAll(host, fs, p, mode).value, x) ==
                        if x <= p && x !in fs then Some(host.NewDir(mode)) else At(fs, x)
  {
    assert p[..|p|] == p;
    if p !in fs {
      FreeIsMissing(fs, p);
    }
    MkdirAllEffect(host, fs, p, mode);
    MkdirAllKeepsValid(host, fs, p, mode);
  }

  lemma FreeBelow(fs: Tree, dest: Path, es: seq<Entry>, i: nat, q: Path)
    requires Valid(fs) && Free(fs, dest, es) && i < |es| && q != [] && q <= es[i].name
    ensures dest + q !in fs
  {
    assert q[..1] == es[i].name[..1];
    if |q| == 1 {
      assert q == q[..1];
    } else if dest + q in fs {
      AncestorsAreDirs(fs, dest + q[..1], dest + q);
    }
  }

  /** On the way to an entry there are only directories, whatever came before it. */
  lemma OnlyDirsOnTheWay(host: Host, fs: Tree, dest: Path, es: seq<Entry>, i: nat, gs: Tree, q: Path)
    requires Valid(fs) && IsDir(fs, dest) && Treelike(es) && Free(fs, dest, es) && i < |es|
    requires Valid(gs) && Built(host, fs, dest, es[..i], gs)
    requires q < es[i].name || (q == es[i].name && es[i].kind.Dir?)
    ensures forall k :: 0 <= k <= |dest + q| && (dest + q)[..k] in gs ==> IsDir(gs, (dest + q)[..k])
  {
    assert At(gs, dest) == Expected(host, fs, dest, es[..i], dest);
    forall k | 0 <= k <= |dest + q| && (dest + q)[..k] in gs ensures IsDir(gs, (dest + q)[..k]) {
      var p := (dest + q)[..k];
      if k < |dest| {
        assert p == dest[..k];
        AncestorsAreDirs(gs, p, dest);
      } else if k == |dest| {
        assert p == dest;
      } else {
        var r := q[..k - |dest|];
        assert p == dest + r && p[|dest|..] == r;
        FreeBelow(fs, dest, es, i, r);
        assert At(gs, p) == Expected(host, fs, dest, es[..i], p);
        DirAbove(host, es, i, r);
      }
    }
  }

  lemma DirAbove(host: Host, es: seq<Entry>, i: nat, r: Path)
    requires Treelike(es) && i < |es| && (r < es[i].name || (r == es[i].name && es[i].kind.Dir?))
    ensures Placed(host, es[..i], r).Some? ==> Placed(host, es[..i], r).value.kind.Dir?
  {
    var before := es[..i];
    if Placed(host, before, r).Some? {
      var k := SomeFirst(host, before, r);
      PlacedByFirst(host, before, r, k);
      assert before[k] == es[k];
    }
  }

  lemma {:induction false} SomeFirst(host: Host, es: seq<Entry>, q: Path) returns (k: nat)
    requires Placed(host, es, q).Some?
    ensures FirstAt(es, q, k)
  {
    var before := es[..|es| - 1];
    if Placed(host, before, q).Some? {
      k := SomeFirst(host, before, q);
    } else {
      PlacedBelow(host, before, q);
      forall j | 0 <= j < |es| - 1 ensures !(q <= es[j].name) { assert es[j] == before[j]; }
      k := |es| - 1;
    }
  }

  lemma NothingThere(host: Host, es: seq<Entry>, i: nat)
    requires Treelike(es) && i < |es| && !es[i].kind.Dir?
    ensures Placed(host, es[..i], es[i].name).None?
  {
    if Placed(host, es[..i], es[i].name).Some? {
      var k := SomeFirst(host, es[..i], es[i].name);
    }
  }

  /** The effect of one entry, name by name. */
  ghost predicate PutEffect(host: Host, gs: Tree, dest: Path, e: Entry, hs: Tree) {
    forall p :: At(hs, p) ==
                if p in gs then At(gs, p)
                else if p == dest + e.name then Some(Own(host, e))
                else if p < dest + e.name then Some(host.NewDir(OnTheWay(e)))
                else None
  }

  lemma DirsAreReal(host: Host, fs: Tree, p: Path)
    requires forall k :: 0 <= k <= |p| && p[..k] in fs ==> IsDir(fs, p[..k])
    ensures Real(host, fs, p) == Some(p)
  {
    EnterPlain(host, fs, p, MAX_LINKS);
  }

  /** With only directories on the way, no links come into it. */
  lemma {:induction false} ThroughDirs(host: Host, fs: Tree, p: Path, mode: Mode.Perm)
    requires Valid(fs) && forall k :: 0 <= k <= |p| && p[..k] in fs ==> IsDir(fs, p[..k])
    ensures MkdirAll(host, fs, p, mode).Some?
    ensures MkdirAllThrough(host, fs, p, mode) == (MkdirAll(host, fs, p, mode).value, true)
    decreases |p|
  {
    DirsAreReal(host, fs, p);
    assert p[..|p|] == p;
    if p !in fs {
      var up := Parent(p);
      forall k | 0 <= k <= |up| ensures up[..k] == p[..k] {}
      ThroughDirs(host, fs, up, mode);
      ThroughOneMore(host, fs, p, mode);
    }
  }

  lemma ThroughOneMore(host: Host, fs: Tree, p: Path, mode: Mode.Perm)
    requires Valid(fs) && p !in fs && p != []
    requires forall k :: 0 <= k < |p| && p[..k] in fs ==> IsDir(fs, p[..k])
    requires MkdirAll(host, fs, Parent(p), mode).Some?
    ensures MkdirAll(host, fs, p, mode).Some?
    ensures CreateThrough(host, MkdirAll(host, fs, Parent(p), mode).value, p, host.NewDir(mode))
         == (MkdirAll(host, fs, p, mode).value, true)
  {
    MkdirAllOneMore(host, fs, p, mode);
    ParentMade(host, fs, p, mode);
    CreateReal(host, MkdirAll(host, fs, Parent(p), mode).value, p, host.NewDir(mode));
  }

  lemma CreateReal(host: Host, fs: Tree, p: Path, n: Node)
    requires p != [] && Real(host, fs, Parent(p)) == Some(Parent(p))
    ensures CreateThrough(host, fs, p, n) ==
            match Create(fs, p, n) { case None => (fs, false) case Some(gs) => (gs, true) }
  {
    assert Parent(p) + [Last(p)] == p;
  }

  lemma MkdirAllOneMore(host: Host, fs: Tree, p: Path, mode: Mode.Perm)
    requires Valid(fs) && p !in fs && p != [] && MkdirAll(host, fs, Parent(p), mode).Some?
    requires forall k :: 0 <= k < |p| && p[..k] in fs ==> IsDir(fs, p[..k])
    ensures MkdirAll(host, fs, p, mode).Some?
    ensures Create(MkdirAll(host, fs, Parent(p), mode).value, p, host.NewDir(mode)) == MkdirAll(host, fs, p, mode)
  {
    FreeIsMissing(fs, p);
    MkdirAllStep(host, fs, p, mode);
  }

  lemma ParentMade(host: Host, fs: Tree, p: Path, mode: Mode.Perm)
    requires Valid(fs) && p !in fs && p != [] && MkdirAll(host, fs, Parent(p), mode).Some?
    requires forall k :: 0 <= k < |p| && p[..k] in fs ==> IsDir(fs, p[..k])
    ensures Real(host, MkdirAll(host, fs, Parent(p), mode).value, Parent(p)) == Some(Parent(p))
  {
    var up := Parent(p);
    var gs := MkdirAll(host, fs, up, mode).value;
    MkdirAllEffect(host, fs, up, mode);
    forall k | 0 <= k <= |up| && up[..k] in gs ensures IsDir(gs, up[..k]) {
      assert up[..k] == p[..k] && At(gs, up[..k]) == Some(gs[up[..k]]);
    }
    DirsAreReal(host, gs, up);
  }

  lemma PutDir(host: Host, gs: Tree, dest: Path, e: Entry)
    requires Valid(gs) && e.kind.Dir? && Plain(e.name)
    requires forall k :: 0 <= k <= |dest + e.name| && (dest + e.name)[..k] in gs ==> IsDir(gs, (dest + e.name)[..k])
    ensures Put(host, gs, dest, e).1 && PutEffect(host, gs, dest, e, Put(host, gs, dest, e).0)
  {
    JoinPlain(dest, e.name);
    ThroughDirs(host, gs, dest + e.name, e.mode);
    MkdirAllMakes(host, gs, dest + e.name, e.mode);
  }

  lemma PutOther(host: Host, gs: Tree, dest: Path, e: Entry, q: Path)
    requires Valid(gs) && !e.kind.Dir? && e.name != [] && q == Parent(e.name) && dest + e.name !in gs
    requires Plain(e.name) && e.kind != Link("")
    requires forall k :: 0 <= k <= |dest + q| && (dest + q)[..k] in gs ==> IsDir(gs, (dest + q)[..k])
    ensures Put(host, gs, dest, e).1 && PutEffect(host, gs, dest, e, Put(host, gs, dest, e).0)
  {
    var target := dest + e.name;
    JoinPlain(dest, e.name);
    assert Up(target) == dest + q && Parent(target) == dest + q;
    ThroughDirs(host, gs, dest + q, DIR_MODE);
    MkdirAllMakes(host, gs, dest + q, DIR_MODE);
    var hs := MkdirAll(host, gs, dest + q, DIR_MODE).value;
    assert At(hs, target) == None && At(hs, dest + q).Some?;
    assert (dest + q)[..|dest + q|] == dest + q;
    assert IsDir(hs, dest + q);
    LeafInDir(host, hs, target, e);
  }

  /** Putting a link or a file at a free name in a directory that no link leads to. */
  lemma LeafInDir(host: Host, fs: Tree, target: Path, e: Entry)
    requires Valid(fs) && target != [] && target !in fs && IsDir(fs, Parent(target))
    requires !e.kind.Dir? && e.kind != Link("")
    ensures PutLeaf(host, fs, target, e) == (fs[target := Own(host, e)], true)
  {
    NoLinksInDir(host, fs, target);
    assert Parent(target) + [Last(target)] == target;
  }

  lemma NoLinksInDir(host: Host, fs: Tree, target: Path)
    requires Valid(fs) && target != [] && target !in fs && IsDir(fs, Parent(target))
    ensures Real(host, fs, target) == Some(target) && Real(host, fs, Parent(target)) == Some(Parent(target))
  {
    var up := Parent(target);
    forall k | 0 <= k < |target| ensures target[..k] in fs ==> !fs[target[..k]].kind.Link? {
      assert target[..k] == up[..k];
      if k < |up| { AncestorsAreDirs(fs, up[..k], up); } else { assert up[..k] == up; }
    }
    assert target[..|target|] == target;
    forall k | 0 <= k <= |up| ensures up[..k] == target[..k] {}
    EnterPlain(host, fs, target, MAX_LINKS);
    EnterPlain(host, fs, up, MAX_LINKS);
  }

  lemma PutExpected(host: Host, fs: Tree, dest: Path, es: seq<Entry>, i: nat, gs: Tree, hs: Tree, p: Path)
    requires Valid(fs) && IsDir(fs, dest) && Free(fs, dest, es) && i < |es| && es[i].name != []
    requires Valid(gs) && Built(host, fs, dest, es[..i], gs) && PutEffect(host, gs, dest, es[i], hs)
    ensures At(hs, p) == Expected(host, fs, dest, es[..i + 1], p)
  {
    assert es[..i + 1][..i] == es[..i];
    assert At(gs, p) == Expected(host, fs, dest, es[..i], p);
    if dest < p {
      var r := p[|dest|..];
      assert p == dest + r;
      if r <= es[i].name {
        FreeBelow(fs, dest, es, i, r);
      }
      BelowDest(dest, r, es[i].name);
    } else {
      assert At(gs, dest) == Expected(host, fs, dest, es[..i], dest);
      OnlyBelowIsNew(gs, dest, es[i].name, p);
    }
  }

  lemma BelowDest(dest: Path, r: Path, name: Path)
    ensures dest + r < dest + name <==> r < name
    ensures dest + r == dest + name <==> r == name
  {
    assert (dest + r)[|dest|..] == r && (dest + name)[|dest|..] == name;
    if r < name {
      forall k | 0 <= k < |dest + r| ensures (dest + r)[k] == (dest + name)[k] {}
    }
    if dest + r < dest + name {
      forall k | 0 <= k < |r| ensures r[k] == name[k] {
        assert (dest + r)[|dest| + k] == (dest + name)[|dest| + k];
      }
    }
  }

  lemma OnlyBelowIsNew(gs: Tree, dest: Path, name: Path, p: Path)
    requires Valid(gs) && IsDir(gs, dest) && name != [] && !(dest < p)
    ensures p <= dest + name ==> p in gs
  {
    if p <= dest + name {
      assert p <= dest;
      if p < dest { AncestorsAreDirs(gs, p, dest); } else { assert p == dest; }
    }
  }

  lemma PutBuilds(host: Host, fs: Tree, dest: Path, es: seq<Entry>, i: nat, gs: Tree)
    requires Valid(fs) && IsDir(fs, dest) && Treelike(es) && Free(fs, dest, es) && i < |es|
    requires Valid(gs) && Built(host, fs, dest, es[..i], gs)
    ensures Put(host, gs, dest, es[i]).1 && Built(host, fs, dest, es[..i + 1], Put(host, gs, dest, es[i]).0)
  {
    var e := es[i];
    if e.kind.Dir? {
      OnlyDirsOnTheWay(host, fs, dest, es, i, gs, e.name);
      PutDir(host, gs, dest, e);
    } else {
      OnlyDirsOnTheWay(host, fs, dest, es, i, gs, Parent(e.name));
      NothingThere(host, es, i);
      FreeBelow(fs, dest, es, i, e.name);
      assert At(gs, dest + e.name) == Expected(host, fs, dest, es[..i], dest + e.name);
      assert (dest + e.name)[|dest|..] == e.name;
      PutOther(host, gs, dest, e, Parent(e.name));
    }
    forall p ensures At(Put(host, gs, dest, e).0, p) == Expected(host, fs, dest, es[..i + 1], p) {
      PutExpected(host, fs, dest, es, i, gs, Put(host, gs, dest, e).0, p);
    }
  }

  /** The whole replay: each name is made by the first entry at or below it; whatever was there stays as it was. */
  lemma {:induction false} ReplayBuilds(host: Host, fs: Tree, dest: Path, es: seq<Entry>, n: nat)
    requires Valid(fs) && IsDir(fs, dest) && Treelike(es) && Free(fs, dest, es) && n <= |es|
    ensures var (gs, ok) := Replay(host, fs, dest, es[..n]); ok && Valid(gs) && Built(host, fs, dest, es[..n], gs)
  {
    if n > 0 {
      ReplayBuilds(host, fs, dest, es, n - 1);
      assert es[..n][..n - 1] == es[..n - 1];
      var gs := Replay(host, fs, dest, es[..n - 1]).0;
      PutBuilds(host, fs, dest, es, n - 1, gs);
      PutKeepsValid(host, gs, dest, es[n - 1]);
    }
  }

  // ---------------------------------------------------------------- the round trip

  /** The same names, kinds, data and link targets below both roots. */
  ghost predicate SameNames(fs: Tree, src: Path, gs: Tree, root: Path) {
    forall q: Path :: (src + q in fs <==> root + q in gs) && (src + q in fs ==> fs[src + q].kind == gs[root + q].kind)
  }

  /** The same permissions too, on all but symbolic links. */
  ghost predicate SameModes(fs: Tree, src: Path, gs: Tree, root: Path) {
    forall q: Path :: src + q in fs && root + q in gs && !fs[src + q].kind.Link? ==>
        fs[src + q].meta.mode == gs[root + q].meta.mode
  }

  ghost predicate SameOutside(fs: Tree, gs: Tree, root: Path) {
    forall p :: !(root <= p) ==> At(gs, p) == At(fs, p)
  }

  /** The name of an archived tree. */
  function Base(src: Path): string
    requires src != []
  {
    src[|src| - 1]
  }

  /** Entry `i` keeps its permissions: the first entry at or below its name gives just those. */
  ghost predicate Keeps(host: Host, es: seq<Entry>, i: nat)
    requires i < |es|
  {
    forall k :: 0 <= k < |es| && FirstAt(es, es[i].name, k) && !es[i].kind.Link? ==>
      (if k == i then es[i].mode else OnTheWay(es[k])) - host.umask == es[i].mode
  }

  /** No tree on disk has a node called `.`, `..` or nothing at all, or a link without text. */
  ghost predicate OnDisk(fs: Tree) {
    forall p :: p in fs ==> Plain(p) && fs[p].kind != Link("")
  }

  lemma ListedEntry(fs: Tree, src: Path, es: seq<Entry>, i: nat)
    requires OnDisk(fs) && src != [] && Lists(fs, src, es) && i < |es|
    ensures es[i].name != [] && es[i].name[0] == Base(src) && Plain(es[i].name) && es[i].kind != Link("")
  {
    var p := Up(src) + es[i].name;
    assert src <= p && p[|src| - 1] == src[|src| - 1];
    forall k | 0 <= k < |es[i].name| ensures es[i].name[k] == p[|Up(src)| + k] {}
  }

  lemma ListsTreelike(fs: Tree, src: Path, es: seq<Entry>)
    requires Valid(fs) && OnDisk(fs) && src != [] && Lists(fs, src, es)
    ensures Treelike(es) && forall i :: 0 <= i < |es| ==> es[i].name != [] && es[i].name[0] == Base(src)
  {
    forall i | 0 <= i < |es|
      ensures es[i].name != [] && es[i].name[0] == Base(src) && Plain(es[i].name) && es[i].kind != Link("")
    {
      ListedEntry(fs, src, es, i);
    }
    forall i, j | 0 <= i < |es| && 0 <= j < |es| && es[i].name < es[j].name ensures es[i].kind.Dir? {
      assert Up(src) + es[i].name < Up(src) + es[j].name;
      AncestorsAreDirs(fs, Up(src) + es[i].name, Up(src) + es[j].name);
    }
  }

  /** A name is placed just when it is archived. */
  lemma PlacedIffListed(host: Host, fs: Tree, src: Path, es: seq<Entry>, name: Path)
    requires Valid(fs) && src != [] && Lists(fs, src, es) && [Base(src)] <= name
    ensures Placed(host, es, name).Some? <==> Up(src) + name in fs
  {
    PlacedBelow(host, es, name);
    if Up(src) + name in fs {
      var i := ListedName(fs, src, es, name);
    } else if Placed(host, es, name).Some? {
      var i :| 0 <= i < |es| && name <= es[i].name;
      if name != es[i].name {
        AncestorsAreDirs(fs, Up(src) + name, Up(src) + es[i].name);
      }
    }
  }

  lemma ListedName(fs: Tree, src: Path, es: seq<Entry>, name: Path) returns (i: nat)
    requires src != [] && Lists(fs, src, es) && [Base(src)] <= name && Up(src) + name in fs
    ensures i < |es| && es[i].name == name
  {
    var p := Up(src) + name;
    assert src == Up(src) + [Base(src)];
    assert src <= p && p[|Up(src)|..] == name;
    assert p in Subtree(fs, src);
    i :| 0 <= i < |es| && es[i].name == p[|Up(src)|..];
  }

  lemma FirstIsUnique(es: seq<Entry>, q: Path, j: nat, k: nat)
    requires FirstAt(es, q, j) && FirstAt(es, q, k)
    ensures j == k
  {}

  lemma PlacedAs(host: Host, es: seq<Entry>, i: nat)
    requires Treelike(es) && i < |es|
    ensures Placed(host, es, es[i].name).Some? && Placed(host, es, es[i].name).value.kind == es[i].kind
    ensures !es[i].kind.Link? ==> (Placed(host, es, es[i].name).value.meta.mode == es[i].mode <==> Keeps(host, es, i))
  {
    PlacedBelow(host, es, es[i].name);
    var k := SomeFirst(host, es, es[i].name);
    PlacedByFirst(host, es, es[i].name, k);
    assert es[k].name == es[i].name ==> k == i;
    if !es[i].kind.Link? {
      KeepsAt(host, es, i, k);
    }
  }

  lemma KeepsAt(host: Host, es: seq<Entry>, i: nat, k: nat)
    requires i < |es| && FirstAt(es, es[i].name, k) && !es[i].kind.Link?
    ensures Keeps(host, es, i) <==> (if k == i then es[i].mode else OnTheWay(es[k])) - host.umask == es[i].mode
  {
    forall j | 0 <= j < |es| && FirstAt(es, es[i].name, j) ensures j == k {
      FirstIsUnique(es, es[i].name, j, k);
    }
  }

  lemma AtName(host: Host, fs: Tree, dest: Path, es: seq<Entry>, gs: Tree, name: Path)
    requires Valid(fs) && Built(host, fs, dest, es, gs) && name != [] && dest + name[..1] !in fs
    ensures At(gs, dest + name) == Placed(host, es, name)
  {
    var p := dest + name;
    assert p[|dest|..] == name && At(gs, p) == Expected(host, fs, dest, es, p);
    assert |name| == 1 ==> name[..1] == name;
    if p in fs && |name| > 1 {
      AncestorsAreDirs(fs, dest + name[..1], p);
    }
  }

  /** One name of the archived tree, in the source and as rebuilt. */
  lemma RebuiltName(host: Host, from: Tree, src: Path, es: seq<Entry>, fs: Tree, dest: Path, gs: Tree, q: Path)
    requires Valid(from) && OnDisk(from) && src != [] && Lists(from, src, es)
    requires Valid(fs) && dest + [Base(src)] !in fs && Built(host, fs, dest, es, gs)
    ensures var root := dest + [Base(src)];
            && (src + q in from <==> root + q in gs)
            && (src + q in from ==>
                  && from[src + q].kind == gs[root + q].kind
                  && exists i :: 0 <= i < |es| && es[i].name == [Base(src)] + q
                       && (!from[src + q].kind.Link? ==>
                           (from[src + q].meta.mode == gs[root + q].meta.mode <==> Keeps(host, es, i))))
  {
    var name := [Base(src)] + q;
    assert dest + [Base(src)] + q == dest + name;
    assert src + q == Up(src) + name;
    assert name[..1] == [Base(src)];
    AtName(host, fs, dest, es, gs, name);
    PlacedIffListed(host, from, src, es, name);
    if src + q in from {
      assert src + q in Subtree(from, src);
      assert (src + q)[|Up(src)|..] == name;
      var i :| 0 <= i < |es| && es[i].name == name;
      ListsTreelike(from, src, es);
      PlacedAs(host, es, i);
    }
  }

  /** Entries replayed in any order rebuild the tree; the permissions too, exactly when every entry keeps its own. */
  lemma RebuildIsExact(host: Host, from: Tree, src: Path, es: seq<Entry>, fs: Tree, dest: Path)
    requires Valid(from) && OnDisk(from) && src != [] && Lists(from, src, es)
    requires Valid(fs) && IsDir(fs, dest) && dest + [Base(src)] !in fs
    ensures var (gs, ok) := Replay(host, fs, dest, es);
            var root := dest + [Base(src)];
            && ok
            && SameNames(from, src, gs, root)
            && SameOutside(fs, gs, root)
            && (SameModes(from, src, gs, root) <==> forall i :: 0 <= i < |es| ==> Keeps(host, es, i))
  {
    var root := dest + [Base(src)];
    ListsTreelike(from, src, es);
    forall i | 0 <= i < |es| ensures dest + es[i].name[..1] !in fs { assert es[i].name[..1] == [Base(src)]; }
    ReplayBuilds(host, fs, dest, es, |es|);
    assert es[..|es|] == es;
    var gs := Replay(host, fs, dest, es).0;
    forall q: Path
      ensures (src + q in from <==> root + q in gs)
      ensures src + q in from ==> from[src + q].kind == gs[root + q].kind
    {
      RebuiltName(host, from, src, es, fs, dest, gs, q);
    }
    forall p | !(root <= p) ensures At(gs, p) == At(fs, p) {
      UntouchedOutside(host, es, fs, dest, Base(src), gs, p);
    }
    ModesExact(host, from, src, es, fs, dest, gs);
  }

  lemma UntouchedOutside(host: Host, es: seq<Entry>, fs: Tree, dest: Path, base: string, gs: Tree, p: Path)
    requires Built(host, fs, dest, es, gs) && !(dest + [base] <= p)
    requires forall i :: 0 <= i < |es| ==> es[i].name != [] && es[i].name[0] == base
    ensures At(gs, p) == At(fs, p)
  {
    assert At(gs, p) == Expected(host, fs, dest, es, p);
    if dest < p {
      var q := p[|dest|..];
      assert p == dest + q && q[0] != base;
      PlacedBelow(host, es, q);
    }
  }

  lemma ModesExact(host: Host, from: Tree, src: Path, es: seq<Entry>, fs: Tree, dest: Path, gs: Tree)
    requires Valid(from) && OnDisk(from) && src != [] && Lists(from, src, es)
    requires Valid(fs) && dest + [Base(src)] !in fs && Built(host, fs, dest, es, gs)
    ensures SameModes(from, src, gs, dest + [Base(src)]) <==> forall i :: 0 <= i < |es| ==> Keeps(host, es, i)
  {
    if SameModes(from, src, gs, dest + [Base(src)]) {
      forall i | 0 <= i < |es| ensures Keeps(host, es, i) {
        KeptIfSame(host, from, src, es, fs, dest, gs, i);
      }
    }
    if forall i :: 0 <= i < |es| ==> Keeps(host, es, i) {
      var root := dest + [Base(src)];
      forall q: Path | src + q in from && root + q in gs && !from[src + q].kind.Link?
        ensures from[src + q].meta.mode == gs[root + q].meta.mode
      {
        RebuiltName(host, from, src, es, fs, dest, gs, q);
      }
    }
  }

  lemma KeptIfSame(host: Host, from: Tree, src: Path, es: seq<Entry>, fs: Tree, dest: Path, gs: Tree, i: nat)
    requires Valid(from) && OnDisk(from) && src != [] && Lists(from, src, es) && i < |es|
    requires Valid(fs) && dest + [Base(src)] !in fs && Built(host, fs, dest, es, gs)
    requires SameModes(from, src, gs, dest + [Base(src)])
    ensures Keeps(host, es, i)
  {
    ListsTreelike(from, src, es);
    var p := Up(src) + es[i].name;
    var q := p[|src|..];
    assert src + q == p && es[i].name == [Base(src)] + q;
    RebuiltName(host, from, src, es, fs, dest, gs, q);
  }

  /**
   What `Tar` writes, replayed where the tree's name is free: the same tree, and nothing else
   touched. Permissions come back as they were exactly when the umask takes none of them away.
   */
  lemma RoundTrip(host: Host, from: Tree, src: Path, es: seq<Entry>, fs: Tree, dest: Path)
    requires Valid(from) && OnDisk(from) && src != [] && Lists(from, src, es) && AncestorsFirst(es)
    requires Valid(fs) && IsDir(fs, dest) && dest + [Base(src)] !in fs
    ensures var (gs, ok) := Replay(host, fs, dest, es);
            var root := dest + [Base(src)];
            && ok
            && SameNames(from, src, gs, root)
            && SameOutside(fs, gs, root)
            && (SameModes(from, src, gs, root) <==>
                forall p :: p in from && src <= p && !from[p].kind.Link? ==> from[p].meta.mode !! host.umask)
  {
    RebuildIsExact(host, from, src, es, fs, dest);
    KeptInOrder(host, from, src, es);
  }

  lemma KeptInOrder(host: Host, from: Tree, src: Path, es: seq<Entry>)
    requires Valid(from) && src != [] && Lists(from, src, es) && AncestorsFirst(es)
    ensures (forall i :: 0 <= i < |es| ==> Keeps(host, es, i)) <==>
            forall p :: p in from && src <= p && !from[p].kind.Link? ==> from[p].meta.mode !! host.umask
  {
    if forall i :: 0 <= i < |es| ==> Keeps(host, es, i) {
      forall p | p in from && src <= p && !from[p].kind.Link? ensures from[p].meta.mode !! host.umask {
        assert p in Subtree(from, src);
        var i :| 0 <= i < |es| && es[i].name == p[|Up(src)|..];
        assert Up(src) + es[i].name == p;
        assert Keeps(host, es, i);
        KeepsInOrder(host, es, i);
      }
    }
    if forall p :: p in from && src <= p && !from[p].kind.Link? ==> from[p].meta.mode !! host.umask {
      forall i | 0 <= i < |es| ensures Keeps(host, es, i) {
        KeepsInOrder(host, es, i);
      }
    }
  }

  lemma KeepsInOrder(host: Host, es: seq<Entry>, i: nat)
    requires i < |es| && AncestorsFirst(es) && forall i, j :: 0 <= i < j < |es| ==> es[i].name != es[j].name
    ensures Keeps(host, es, i) <==> (es[i].kind.Link? || es[i].mode !! host.umask)
  {
    OwnEntryIsFirst(es, i);
    if !es[i].kind.Link? { KeepsAt(host, es, i, i); }
  }

  lemma OwnEntryIsFirst(es: seq<Entry>, i: nat)
    requires i < |es| && AncestorsFirst(es) && forall i, j :: 0 <= i < j < |es| ==> es[i].name != es[j].name
    ensures FirstAt(es, es[i].name, i)
  {}

  /** With a file ahead of its directory, the directory is left with 0755 rather than its own permissions. */
  lemma ChildFirst(host: Host, fs: Tree, dest: Path, a: string, b: string, data: string, mode: Mode.Perm)
    requires Valid(fs) && IsDir(fs, dest) && dest + [a] !in fs && Plain([a, b])
    ensures var es := [Entry([a, b], Reg(data), mode), Entry([a], Dir, mode)];
            var (gs, ok) := Replay(host, fs, dest, es);
            ok && At(gs, dest + [a]) == Some(host.NewDir(DIR_MODE))
  {
    var es := [Entry([a, b], Reg(data), mode), Entry([a], Dir, mode)];
    ChildFirstTree(fs, dest, a, b, data, mode);
    ReplayBuilds(host, fs, dest, es, 2);
    assert es[..2] == es && [a][..1] == [a];
    AtName(host, fs, dest, es, Replay(host, fs, dest, es).0, [a]);
    assert FirstAt(es, [a], 0);
    PlacedByFirst(host, es, [a], 0);
  }

  lemma ChildFirstTree(fs: Tree, dest: Path, a: string, b: string, data: string, mode: Mode.Perm)
    requires dest + [a] !in fs && Plain([a, b])
    ensures var es := [Entry([a, b], Reg(data), mode), Entry([a], Dir, mode)]; Treelike(es) && Free(fs, dest, es)
  {
    assert [a, b][..1] == [a] && [a][..1] == [a] && [a][0] == [a, b][0];
  }
}
