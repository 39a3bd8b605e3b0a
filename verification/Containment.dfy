/** Where the replay of any entries writes: inside its destination, or through links and `..` outside it. */
module Containment {
  import opened Prelude
  import Mode
  import opened FileSystem
  import opened Archive

  /** Whatever is not at or below `dest` is as it was. */
  ghost predicate SameElsewhere(fs: Tree, gs: Tree, dest: Path) {
    forall p :: !(dest <= p) ==> At(gs, p) == At(fs, p)
  }

  /** Where the node of an entry really ends up. */
  function Landing(host: Host, fs: Tree, dest: Path, e: Entry): Option<Path> {
    NodeLanding(host, fs, Join(dest, e.name), e)
  }

  function NodeLanding(host: Host, fs: Tree, target: Path, e: Entry): Option<Path> {
    if !e.kind.Link? then Real(host, fs, target)
    else if target == [] then None
    else RealName(host, fs, target)
  }

  predicate LandsInside(host: Host, fs: Tree, dest: Path, e: Entry) {
    var l := Landing(host, fs, dest, e);
    l.Some? && dest <= l.value
  }

  /** The entry is refused before anything is made, or finds there what it asks for. */
  predicate Moot(host: Host, fs: Tree, dest: Path, e: Entry) {
    var l, dir := Landing(host, fs, dest, e), Real(host, fs, Up(Join(dest, e.name)));
    match e.kind
    case Dir => !Put(host, fs, dest, e).1 || (l.Some? && l.value in fs)
    case Reg(_) => !Put(host, fs, dest, e).1 || (l.Some? && l.value in fs && fs[l.value].kind == e.kind)
    case Link(to) =>
      if to != "" then !Put(host, fs, dest, e).1
      else !MkdirAllThrough(host, fs, Up(Join(dest, e.name)), DIR_MODE).1 || (dir.Some? && dir.value in fs)
  }

  // ---------------------------------------------------------------- making directories

  /** `gs` and some new directories on the way to `q`. */
  ghost predicate AddsDirs(gs: Tree, hs: Tree, q: Option<Path>) {
    && (forall x :: x in gs ==> x in hs && hs[x] == gs[x])
    && (forall x :: x in hs && x !in gs ==> q.Some? && x <= q.value && hs[x].kind.Dir?)
  }

  /** Directories are made on the way to where the path really leads; a failure makes none. */
  lemma {:induction false} MakesOnTheWay(host: Host, gs: Tree, p: Path, mode: Mode.Perm)
    requires Valid(gs)
    ensures var (hs, ok) := MkdirAllThrough(host, gs, p, mode);
            var q := Real(host, gs, p);
            && AddsDirs(gs, hs, q)
            && (!ok ==> hs == gs)
            && (ok ==> q.Some? && IsDir(hs, q.value))
            && (hs != gs ==> q.Some? && q.value !in gs)
    decreases |p|
  {
    var there := Real(host, gs, p);
    if !(there.Some? && there.value in gs) && p != [] {
      MakesOnTheWay(host, gs, Parent(p), mode);
      var (g1, ok) := MkdirAllThrough(host, gs, Parent(p), mode);
      if ok {
        MakesLast(host, gs, g1, p, mode);
      }
    }
  }

  lemma MakesLast(host: Host, gs: Tree, g1: Tree, p: Path, mode: Mode.Perm)
    requires Valid(gs) && p != []
    requires var q := Real(host, gs, p); !(q.Some? && q.value in gs)
    requires var d := Real(host, gs, Parent(p));
             && AddsDirs(gs, g1, d) && d.Some? && IsDir(g1, d.value)
             && (g1 != gs ==> d.value !in gs)
    ensures var (hs, ok) := CreateThrough(host, g1, p, host.NewDir(mode));
            var q := Real(host, gs, p);
            && AddsDirs(gs, hs, q)
            && (!ok ==> hs == gs)
            && (ok ==> q.Some? && IsDir(hs, q.value))
            && (hs != gs ==> q.Some? && q.value !in gs)
  {
    var d := Real(host, gs, Parent(p)).value;
    var t := d + [Last(p)];
    SameLinksEnter(host, gs, g1, Parent(p), MAX_LINKS);
    assert RealName(host, g1, p) == Some(t);
    assert Parent(t) == d;
    if t !in g1 {
      assert t !in gs;
      assert Real(host, gs, p) == Some(t);
    } else if g1 != gs {
      NothingBelowNew(gs, g1, d, t);
    }
  }

  /** A directory that has just been made is empty. */
  lemma NothingBelowNew(gs: Tree, hs: Tree, d: Path, t: Path)
    requires Valid(gs) && AddsDirs(gs, hs, Some(d)) && d !in gs && t != [] && Parent(t) == d
    ensures t !in hs
  {}

  // ---------------------------------------------------------------- one entry

  /** What differs is the entry's own node, or a new directory on the way to it. */
  ghost predicate Touches(gs: Tree, hs: Tree, e: Entry, l: Option<Path>) {
    forall x :: At(hs, x) != At(gs, x) ==>
      && l.Some? && x in hs && x <= l.value
      && (x in gs ==> x == l.value && e.kind.Reg? && gs[x].kind.Reg?)
      && (if x == l.value then hs[x].kind == e.kind || (e.kind == Link("") && hs[x].kind.Dir?) else hs[x].kind.Dir?)
  }

  lemma PutTouchesDir(host: Host, gs: Tree, dest: Path, e: Entry)
    requires Valid(gs) && e.kind.Dir?
    ensures Touches(gs, Put(host, gs, dest, e).0, e, Landing(host, gs, dest, e))
    ensures Put(host, gs, dest, e).0 == gs <==> Moot(host, gs, dest, e)
  {
    MakesOnTheWay(host, gs, Join(dest, e.name), e.mode);
  }

  /** Once its directory is there, a leaf touches only its own name, and says so. */
  lemma LeafTouches(host: Host, gs: Tree, target: Path, e: Entry, l: Option<Path>)
    requires !e.kind.Dir?
    requires l == NodeLanding(host, gs, target, e)
    ensures var (hs, ok) := PutLeaf(host, gs, target, e);
            && (!ok ==> hs == gs)
            && (ok ==> l.Some? && l.value in hs && hs[l.value].kind == e.kind && hs - {l.value} == gs - {l.value})
            && (ok && l.value in gs ==>
                e.kind.Reg? && gs[l.value].kind.Reg? && (gs[l.value].kind == e.kind ==> hs == gs))
  {
    var (hs, ok) := PutLeaf(host, gs, target, e);
    if ok && e.kind.Reg? && l.value in gs && gs[l.value].kind == e.kind {
      assert hs == gs;
    }
  }

  lemma PutTouchesLeaf(host: Host, gs: Tree, dest: Path, e: Entry)
    requires Valid(gs) && !e.kind.Dir?
    ensures Touches(gs, Put(host, gs, dest, e).0, e, Landing(host, gs, dest, e))
    ensures Put(host, gs, dest, e).0 == gs <==> Moot(host, gs, dest, e)
  {
    var target := Join(dest, e.name);
    var l := Landing(host, gs, dest, e);
    MakesOnTheWay(host, gs, Up(target), DIR_MODE);
    var (ms, ok) := MkdirAllThrough(host, gs, Up(target), DIR_MODE);
    if ok {
      SameLinksEnter(host, gs, ms, target, MAX_LINKS);
      SameLinksEnter(host, gs, ms, Up(target), MAX_LINKS);
      LeafTouches(host, ms, target, e, l);
      if ms == gs {
        LeafAlone(host, gs, target, e, l);
      } else {
        LeafInNewDir(host, gs, ms, target, e, l);
      }
    }
  }

  lemma LeafAlone(host: Host, gs: Tree, target: Path, e: Entry, l: Option<Path>)
    requires !e.kind.Dir?
    requires l == NodeLanding(host, gs, target, e)
    ensures Touches(gs, PutLeaf(host, gs, target, e).0, e, l)
  {
    LeafTouches(host, gs, target, e, l);
    var (hs, ok) := PutLeaf(host, gs, target, e);
    if ok {
      forall x | x != l.value ensures At(hs, x) == At(gs, x) {
        assert x in hs <==> x in hs - {l.value};
        assert x in gs <==> x in gs - {l.value};
      }
    }
  }

  lemma LeafInNewDir(host: Host, gs: Tree, ms: Tree, target: Path, e: Entry, l: Option<Path>)
    requires Valid(gs) && !e.kind.Dir? && ms != gs
    requires var d := Real(host, gs, Up(target));
             AddsDirs(gs, ms, d) && d.Some? && IsDir(ms, d.value) && d.value !in gs
    requires l == NodeLanding(host, ms, target, e)
    requires Real(host, ms, Up(target)) == Real(host, gs, Up(target))
        && Real(host, ms, target) == Real(host, gs, target)
    ensures var (hs, ok) := PutLeaf(host, ms, target, e);
            && Touches(gs, hs, e, l) && hs != gs && l.Some? && l.value !in gs
            && (ok <==> e.kind != Link(""))
  {
    var d := Real(host, gs, Up(target)).value;
    assert target != [];
    var t := d + [Last(target)];
    assert Parent(t) == d;
    NothingBelowNew(gs, ms, d, t);
    assert l == Some(t);
    assert At(ms, d) != At(gs, d);
    LeafTouches(host, ms, target, e, l);
    var (hs, ok) := PutLeaf(host, ms, target, e);
    forall x | x != t ensures At(hs, x) == At(ms, x) {
      if ok {
        assert x in hs <==> x in hs - {t};
        assert x in ms <==> x in ms - {t};
      }
    }
  }

  lemma PutTouches(host: Host, gs: Tree, dest: Path, e: Entry)
    requires Valid(gs)
    ensures Touches(gs, Put(host, gs, dest, e).0, e, Landing(host, gs, dest, e))
    ensures Put(host, gs, dest, e).0 == gs <==> Moot(host, gs, dest, e)
  {
    if e.kind.Dir? {
      PutTouchesDir(host, gs, dest, e);
    } else {
      PutTouchesLeaf(host, gs, dest, e);
    }
  }

  lemma PutKeepsDir(host: Host, gs: Tree, dest: Path, e: Entry)
    requires Valid(gs) && IsDir(gs, dest)
    ensures IsDir(Put(host, gs, dest, e).0, dest)
  {
    PutTouches(host, gs, dest, e);
    var hs := Put(host, gs, dest, e).0;
    if At(hs, dest) == At(gs, dest) {
      assert dest in hs;
    }
  }

  /** One entry leaves everything outside `dest` alone exactly when it lands inside or is moot. */
  lemma PutStaysInsideExactly(host: Host, gs: Tree, dest: Path, e: Entry)
    requires Valid(gs) && IsDir(gs, dest)
    ensures SameElsewhere(gs, Put(host, gs, dest, e).0, dest) <==>
            LandsInside(host, gs, dest, e) || Moot(host, gs, dest, e)
  {
    var hs, l := Put(host, gs, dest, e).0, Landing(host, gs, dest, e);
    PutTouches(host, gs, dest, e);
    if LandsInside(host, gs, dest, e) {
      forall x | !(dest <= x) ensures At(hs, x) == At(gs, x) {
        if At(hs, x) != At(gs, x) {
          assert x < dest;
          AncestorsAreDirs(gs, x, dest);
        }
      }
    } else if hs != gs {
      var x := SomeDifference(gs, hs);
      assert !(dest <= x);
    }
  }

  lemma SomeDifference(gs: Tree, hs: Tree) returns (x: Path)
    requires gs != hs
    ensures At(hs, x) != At(gs, x)
  {
    if forall y :: At(hs, y) == At(gs, y) {
      forall y ensures y in hs <==> y in gs { assert At(hs, y) == At(gs, y); }
      forall y | y in hs ensures hs[y] == gs[y] { assert At(hs, y) == At(gs, y); }
    }
    x :| At(hs, x) != At(gs, x);
  }

  // ---------------------------------------------------------------- all of them

  /** Entry `n`, if the replay reaches it, lands inside `dest` or is moot. */
  predicate HarmlessAt(host: Host, fs: Tree, dest: Path, es: seq<Entry>, n: nat)
    requires n < |es|
  {
    var (gs, ok) := Replay(host, fs, dest, es[..n]);
    ok ==> LandsInside(host, gs, dest, es[n]) || Moot(host, gs, dest, es[n])
  }

  ghost predicate InsideUpTo(host: Host, fs: Tree, dest: Path, es: seq<Entry>, n: nat)
    requires n <= |es|
  {
    SameElsewhere(fs, Replay(host, fs, dest, es[..n]).0, dest)
  }

  lemma {:induction false} ReplayKeepsDir(host: Host, fs: Tree, dest: Path, es: seq<Entry>, n: nat)
    requires Valid(fs) && IsDir(fs, dest) && n <= |es|
    ensures Valid(Replay(host, fs, dest, es[..n]).0) && IsDir(Replay(host, fs, dest, es[..n]).0, dest)
  {
    if n > 0 {
      ReplayKeepsDir(host, fs, dest, es, n - 1);
      assert es[..n][..n - 1] == es[..n - 1];
      var gs := Replay(host, fs, dest, es[..n - 1]).0;
      PutKeepsValid(host, gs, dest, es[n - 1]);
      PutKeepsDir(host, gs, dest, es[n - 1]);
    }
  }

  lemma InsideOneMore(host: Host, fs: Tree, dest: Path, es: seq<Entry>, n: nat)
    requires Valid(fs) && IsDir(fs, dest) && n < |es| && InsideUpTo(host, fs, dest, es, n)
    ensures InsideUpTo(host, fs, dest, es, n + 1) <==> HarmlessAt(host, fs, dest, es, n)
  {
    var (gs, ok) := Replay(host, fs, dest, es[..n]);
    assert es[..n + 1][..n] == es[..n];
    var hs := Replay(host, fs, dest, es[..n + 1]).0;
    if ok {
      ReplayKeepsDir(host, fs, dest, es, n);
      PutStaysInsideExactly(host, gs, dest, es[n]);
      if SameElsewhere(fs, hs, dest) {
        forall p | !(dest <= p) ensures At(hs, p) == At(gs, p) {
          assert At(hs, p) == At(fs, p) && At(gs, p) == At(fs, p);
        }
      }
      if SameElsewhere(gs, hs, dest) {
        forall p | !(dest <= p) ensures At(hs, p) == At(fs, p) {
          assert At(hs, p) == At(gs, p) && At(gs, p) == At(fs, p);
        }
      }
    }
  }

  /**
   Any entries at all: the replay never touches anything outside `dest` if and only if every entry
   it reaches really lands inside, or is moot.
   */
  lemma ReplayStaysInsideExactly(host: Host, fs: Tree, dest: Path, es: seq<Entry>)
    requires Valid(fs) && IsDir(fs, dest)
    ensures (forall n :: 0 <= n <= |es| ==> InsideUpTo(host, fs, dest, es, n)) <==>
            (forall n :: 0 <= n < |es| ==> HarmlessAt(host, fs, dest, es, n))
  {
    if forall n :: 0 <= n <= |es| ==> InsideUpTo(host, fs, dest, es, n) {
      forall n | 0 <= n < |es| ensures HarmlessAt(host, fs, dest, es, n) {
        assert InsideUpTo(host, fs, dest, es, n) && InsideUpTo(host, fs, dest, es, n + 1);
        InsideOneMore(host, fs, dest, es, n);
      }
    }
    if forall n :: 0 <= n < |es| ==> HarmlessAt(host, fs, dest, es, n) {
      for k := 0 to |es|
        invariant forall n :: 0 <= n <= k ==> InsideUpTo(host, fs, dest, es, n)
      {
        InsideOneMore(host, fs, dest, es, k);
      }
    }
  }

  // ---------------------------------------------------------------- entries that cannot leave

  /**
   No name leaves `dest` by `..`; once there is a link entry, no name passes through it, and no file
   takes its place.
   */
  ghost predicate Tidy(dest: Path, es: seq<Entry>) {
    && (forall j :: 0 <= j < |es| ==> dest <= Join(dest, es[j].name))
    && (forall i, j :: 0 <= i < j < |es| && es[i].kind.Link? ==>
          && !(Join(dest, es[i].name) < Join(dest, es[j].name))
          && !(es[j].kind.Reg? && Join(dest, es[i].name) == Join(dest, es[j].name)))
  }

  /** The only links at or below `dest` are those of the first `n` entries. */
  ghost predicate LinksFrom(gs: Tree, dest: Path, es: seq<Entry>, n: nat)
    requires n <= |es|
  {
    forall p :: p in gs && dest <= p && gs[p].kind.Link? ==>
      exists i :: 0 <= i < n && es[i].kind.Link? && Join(dest, es[i].name) == p
  }

  /** What is on the way to a tidy entry is no link, but perhaps the name itself. */
  lemma NoLinksOnTheWay(gs: Tree, dest: Path, es: seq<Entry>, n: nat, k: nat)
    requires Valid(gs) && IsDir(gs, dest) && n < |es| && Tidy(dest, es) && LinksFrom(gs, dest, es, n)
    requires k <= |Join(dest, es[n].name)| && Join(dest, es[n].name)[..k] in gs
    ensures gs[Join(dest, es[n].name)[..k]].kind.Link? ==> k == |Join(dest, es[n].name)| && !es[n].kind.Reg?
  {
    var t := Join(dest, es[n].name);
    var p := t[..k];
    if gs[p].kind.Link? {
      if k < |dest| {
        assert p == dest[..k];
        AncestorsAreDirs(gs, p, dest);
      } else {
        assert dest <= p;
        var i :| 0 <= i < n && es[i].kind.Link? && Join(dest, es[i].name) == p;
        assert !(p < t) && p <= t;
        assert p == t;
      }
    }
  }

  lemma TidyLandsInside(host: Host, gs: Tree, dest: Path, es: seq<Entry>, n: nat)
    requires Valid(gs) && IsDir(gs, dest) && n < |es| && Tidy(dest, es) && LinksFrom(gs, dest, es, n)
    ensures LandsInside(host, gs, dest, es[n]) || Moot(host, gs, dest, es[n])
    ensures es[n].kind.Link? && Landing(host, gs, dest, es[n]).Some? ==>
              Landing(host, gs, dest, es[n]) == Some(Join(dest, es[n].name))
  {
    var e, t := es[n], Join(dest, es[n].name);
    forall k | 0 <= k <= |t| && t[..k] in gs
      ensures gs[t[..k]].kind.Link? ==> k == |t| && !e.kind.Reg?
    {
      NoLinksOnTheWay(gs, dest, es, n, k);
    }
    if e.kind.Link? {
      LinkLands(host, gs, dest, e);
    } else {
      OtherLands(host, gs, dest, e);
    }
  }

  lemma OtherLands(host: Host, gs: Tree, dest: Path, e: Entry)
    requires Valid(gs) && !e.kind.Link? && dest <= Join(dest, e.name)
    requires var t := Join(dest, e.name);
             forall k :: 0 <= k <= |t| && t[..k] in gs ==> (gs[t[..k]].kind.Link? ==> k == |t| && !e.kind.Reg?)
    ensures LandsInside(host, gs, dest, e) || Moot(host, gs, dest, e)
  {
    var t := Join(dest, e.name);
    assert t[..|t|] == t;
    if t in gs && gs[t].kind.Link? {
      DirOverLink(host, gs, dest, e);
    } else {
      EnterPlain(host, gs, t, MAX_LINKS);
    }
  }

  lemma LinkLands(host: Host, gs: Tree, dest: Path, e: Entry)
    requires Valid(gs) && e.kind.Link?
    requires var t := Join(dest, e.name);
             dest <= t && forall k :: 0 <= k < |t| && t[..k] in gs ==> !gs[t[..k]].kind.Link?
    ensures LandsInside(host, gs, dest, e) || Moot(host, gs, dest, e)
    ensures Landing(host, gs, dest, e).Some? ==> Landing(host, gs, dest, e) == Some(Join(dest, e.name))
  {
    var t := Join(dest, e.name);
    if t == [] {
      PutTouches(host, gs, dest, e);
      if Put(host, gs, dest, e).0 != gs {
        var x := SomeDifference(gs, Put(host, gs, dest, e).0);
        assert false;
      }
    } else {
      var up := Parent(t);
      forall k | 0 <= k <= |up| && up[..k] in gs ensures !gs[up[..k]].kind.Link? {
        assert up[..k] == t[..k];
      }
      EnterPlain(host, gs, up, MAX_LINKS);
      assert up + [Last(t)] == t;
    }
  }

  /** A directory entry where there is a link makes nothing: it finds a directory there or is refused. */
  lemma DirOverLink(host: Host, gs: Tree, dest: Path, e: Entry)
    requires Valid(gs) && e.kind.Dir?
    requires var t := Join(dest, e.name); t in gs && gs[t].kind.Link?
    requires var t := Join(dest, e.name); forall k :: 0 <= k < |t| && t[..k] in gs ==> !gs[t[..k]].kind.Link?
    ensures Moot(host, gs, dest, e)
  {
    var t := Join(dest, e.name);
    var l := Real(host, gs, t);
    if !(l.Some? && l.value in gs) {
      var up := Parent(t);
      forall k | 0 <= k <= |up| ensures up[..k] == t[..k] {}
      EnterPlain(host, gs, up, MAX_LINKS);
      assert up + [Last(t)] == t;
      assert IsDir(gs, up) && MkdirAllThrough(host, gs, up, e.mode) == (gs, true);
      assert RealName(host, gs, t) == Some(t) && Create(gs, t, host.NewDir(e.mode)).None?;
    }
  }

  lemma {:induction false} TidyLinks(host: Host, fs: Tree, dest: Path, es: seq<Entry>, n: nat)
    requires Valid(fs) && IsDir(fs, dest) && n <= |es| && Tidy(dest, es) && LinksFrom(fs, dest, es, 0)
    ensures LinksFrom(Replay(host, fs, dest, es[..n]).0, dest, es, n)
  {
    if n > 0 {
      TidyLinks(host, fs, dest, es, n - 1);
      ReplayKeepsDir(host, fs, dest, es, n - 1);
      TidyMore(host, fs, dest, es, n - 1);
    }
  }

  lemma TidyMore(host: Host, fs: Tree, dest: Path, es: seq<Entry>, n: nat)
    requires n < |es| && Tidy(dest, es)
    requires var gs := Replay(host, fs, dest, es[..n]).0; Valid(gs) && IsDir(gs, dest) && LinksFrom(gs, dest, es, n)
    ensures LinksFrom(Replay(host, fs, dest, es[..n + 1]).0, dest, es, n + 1)
  {
    ReplayMore(host, fs, dest, es, n);
    var (gs, ok) := Replay(host, fs, dest, es[..n]);
    if ok {
      TidyStep(host, gs, dest, es, n);
    } else {
      LinksFromMore(gs, dest, es, n);
    }
  }

  lemma ReplayMore(host: Host, fs: Tree, dest: Path, es: seq<Entry>, n: nat)
    requires n < |es|
    ensures var (gs, ok) := Replay(host, fs, dest, es[..n]);
            Replay(host, fs, dest, es[..n + 1]) == if ok then Put(host, gs, dest, es[n]) else (gs, false)
  {
    assert es[..n + 1][..n] == es[..n];
  }

  lemma LinksFromMore(gs: Tree, dest: Path, es: seq<Entry>, n: nat)
    requires n < |es| && LinksFrom(gs, dest, es, n)
    ensures LinksFrom(gs, dest, es, n + 1)
  {
    forall p | p in gs && dest <= p && gs[p].kind.Link?
      ensures exists i :: 0 <= i < n + 1 && es[i].kind.Link? && Join(dest, es[i].name) == p
    {
      var i :| 0 <= i < n && es[i].kind.Link? && Join(dest, es[i].name) == p;
    }
  }

  lemma TidyStep(host: Host, gs: Tree, dest: Path, es: seq<Entry>, n: nat)
    requires Valid(gs) && IsDir(gs, dest) && n < |es| && Tidy(dest, es) && LinksFrom(gs, dest, es, n)
    ensures LinksFrom(Put(host, gs, dest, es[n]).0, dest, es, n + 1)
  {
    var hs, e := Put(host, gs, dest, es[n]).0, es[n];
    PutTouches(host, gs, dest, e);
    TidyLandsInside(host, gs, dest, es, n);
    forall p | p in hs && dest <= p && hs[p].kind.Link?
      ensures exists i :: 0 <= i < n + 1 && es[i].kind.Link? && Join(dest, es[i].name) == p
    {
      if At(hs, p) == At(gs, p) {
        assert p in gs && gs[p].kind.Link?;
      } else {
        assert e.kind.Link? && Join(dest, e.name) == p;
      }
    }
  }

  /** Tidy entries, replayed where there are no links yet, touch nothing outside `dest`, at any time. */
  lemma TidyStaysInside(host: Host, fs: Tree, dest: Path, es: seq<Entry>)
    requires Valid(fs) && IsDir(fs, dest) && Tidy(dest, es)
    requires forall p :: p in fs && dest <= p ==> !fs[p].kind.Link?
    ensures forall n :: 0 <= n <= |es| ==> InsideUpTo(host, fs, dest, es, n)
  {
    forall n | 0 <= n < |es| ensures HarmlessAt(host, fs, dest, es, n) {
      TidyLinks(host, fs, dest, es, n);
      ReplayKeepsDir(host, fs, dest, es, n);
      TidyLandsInside(host, Replay(host, fs, dest, es[..n]).0, dest, es, n);
    }
    ReplayStaysInsideExactly(host, fs, dest, es);
  }

  // ---------------------------------------------------------------- entries that leave

  /** After a link entry at a free name, its name leads where the link does. */
  lemma LinkEntryLeads(host: Host, fs: Tree, dest: Path, a: string, to: string, out: Path)
    requires Valid(fs) && IsDir(fs, dest) && dest + [a] !in fs && Plain([a]) && to != ""
    requires host.locate(dest + [a], to) == out && out in fs && !fs[out].kind.Link?
    ensures var gs := fs[dest + [a] := host.NewLink(to)];
            && Put(host, fs, dest, Entry([a], Link(to), Mode.ALL)) == (gs, true)
            && Valid(gs) && Real(host, gs, dest) == Some(dest) && Real(host, gs, dest + [a]) == Some(out)
  {
    var t := dest + [a];
    JoinPlain(dest, [a]);
    assert Parent(t) == dest && Last(t) == a;
    DirsLeadToThemselves(host, fs, dest, MAX_LINKS);
    var gs := fs[t := host.NewLink(to)];
    assert Put(host, fs, dest, Entry([a], Link(to), Mode.ALL)) == (gs, true);
    assert Valid(gs) by { CreateKeepsValid(fs, t, host.NewLink(to)); }
    DirsLeadToThemselves(host, gs, dest, MAX_LINKS);
    DirsLeadToThemselves(host, gs, out, MAX_LINKS - 1);
  }

  lemma DirsLeadToThemselves(host: Host, fs: Tree, p: Path, fuel: nat)
    requires Valid(fs) && p in fs && !fs[p].kind.Link?
    ensures Enter(host, fs, p, fuel) == Some((p, fuel))
  {
    forall k | 0 <= k <= |p| && p[..k] in fs ensures !fs[p[..k]].kind.Link? {
      if k < |p| { AncestorsAreDirs(fs, p[..k], p); } else { assert p[..k] == p; }
    }
    EnterPlain(host, fs, p, fuel);
  }

  lemma ReplayTwo(host: Host, fs: Tree, dest: Path, x: Entry, y: Entry)
    requires Put(host, fs, dest, x).1
    ensures Replay(host, fs, dest, [x, y]) == Put(host, Put(host, fs, dest, x).0, dest, y)
  {
    assert [x, y][..1] == [x] && [x][..0] == [];
    assert Replay(host, fs, dest, [x]) == Put(host, fs, dest, x);
  }

  /** A link entry followed by a file entry of its name writes through the link, wherever that leads. */
  lemma WrittenThroughLink(host: Host, fs: Tree, dest: Path, a: string, to: string, out: Path, data: string,
                           mode: Mode.Perm)
    requires Valid(fs) && IsDir(fs, dest) && dest + [a] !in fs && Plain([a]) && to != ""
    requires host.locate(dest + [a], to) == out && out in fs && fs[out].kind.Reg?
    ensures var (gs, ok) := Replay(host, fs, dest, [Entry([a], Link(to), Mode.ALL), Entry([a], Reg(data), mode)]);
            ok && At(gs, out) == Some(fs[out].(kind := Reg(data)))
  {
    var x, y := Entry([a], Link(to), Mode.ALL), Entry([a], Reg(data), mode);
    LinkEntryLeads(host, fs, dest, a, to, out);
    ReplayTwo(host, fs, dest, x, y);
    JoinPlain(dest, [a]);
    assert Parent(dest + [a]) == dest;
  }

  /** A link entry followed by an entry below it makes that where the link leads. */
  lemma WrittenBelowLink(host: Host, fs: Tree, dest: Path, a: string, to: string, out: Path, b: string, data: string,
                         mode: Mode.Perm)
    requires Valid(fs) && IsDir(fs, dest) && dest + [a] !in fs && Plain([a]) && Plain([a, b]) && to != ""
    requires host.locate(dest + [a], to) == out && IsDir(fs, out) && out + [b] !in fs && out + [b] != dest + [a]
    ensures var (gs, ok) := Replay(host, fs, dest, [Entry([a], Link(to), Mode.ALL), Entry([a, b], Reg(data), mode)]);
            ok && At(gs, out + [b]) == Some(Node(Reg(data), host.NewMeta(mode)))
  {
    var x, y := Entry([a], Link(to), Mode.ALL), Entry([a, b], Reg(data), mode);
    LinkEntryLeads(host, fs, dest, a, to, out);
    ReplayTwo(host, fs, dest, x, y);
    var gs := Put(host, fs, dest, x).0;
    JoinPlain(dest, [a, b]);
    var t := dest + [a, b];
    assert Parent(t) == dest + [a] && Last(t) == b;
    FileBelow(host, gs, t, out, data, mode);
  }

  /** A file is made where its directory really is. */
  lemma FileBelow(host: Host, gs: Tree, t: Path, out: Path, data: string, mode: Mode.Perm)
    requires t != [] && Real(host, gs, Parent(t)) == Some(out) && IsDir(gs, out) && out + [Last(t)] !in gs
    ensures MkdirAllThrough(host, gs, Parent(t), DIR_MODE) == (gs, true)
    ensures WriteFile(host, gs, t, data, mode) == (gs[out + [Last(t)] := Node(Reg(data), host.NewMeta(mode))], true)
  {
    assert Real(host, gs, t) == Some(out + [Last(t)]);
    assert Parent(out + [Last(t)]) == out;
  }

  /** A name that begins with `..` is made beside `dest`. */
  lemma WrittenBeside(host: Host, fs: Tree, dest: Path, b: string, data: string, mode: Mode.Perm)
    requires Valid(fs) && IsDir(fs, dest) && dest != [] && Plain([b]) && Parent(dest) + [b] !in fs
    ensures var (gs, ok) := Replay(host, fs, dest, [Entry(["..", b], Reg(data), mode)]);
            ok && At(gs, Parent(dest) + [b]) == Some(Node(Reg(data), host.NewMeta(mode)))
  {
    var e, up := Entry(["..", b], Reg(data), mode), Parent(dest);
    assert e.name[..|e.name| - 1] == [".."] && [".."][..0] == [];
    assert Join(dest, [".."]) == up;
    assert [b][0] != "" && [b][0] != "." && [b][0] != "..";
    assert Join(dest, e.name) == up + [b];
    assert Parent(up + [b]) == up && IsDir(fs, up);
    DirsLeadToThemselves(host, fs, up, MAX_LINKS);
    assert [e][..0] == [];
    assert Replay(host, fs, dest, []) == (fs, true);
  }
}
