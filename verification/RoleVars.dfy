/** Loading the variables or defaults of a role: the chain of places looked at, and the walk of a directory. */
module RoleVars {
  import opened Prelude
  import opened Variables
  import opened FileSystem

  // ---------------------------------------------------------------- lexical order

  /** The order of directory listings. */
  predicate Less(a: string, b: string) {
    b != "" && (a == "" || a[0] < b[0] || (a[0] == b[0] && Less(a[1..], b[1..])))
  }

  /** Lexical pre-order: a directory before what is in it, siblings with all below them by name. */
  predicate Before(p: Path, q: Path) {
    q != [] && (p == [] || (if p[0] == q[0] then Before(p[1..], q[1..]) else Less(p[0], q[0])))
  }

  lemma {:induction false} LessOrder(a: string, b: string, c: string)
    ensures !Less(a, a)
    ensures a == b || Less(a, b) || Less(b, a)
    ensures !(Less(a, b) && Less(b, a))
    ensures Less(a, b) && Less(b, c) ==> Less(a, c)
    decreases |a| + |b| + |c|
  {
    if a != "" && b != "" && c != "" {
      LessOrder(a[1..], b[1..], c[1..]);
      assert a == [a[0]] + a[1..] && b == [b[0]] + b[1..];
    } else if a != "" && b != "" {
      LessOrder(a[1..], b[1..], "");
      assert a == [a[0]] + a[1..] && b == [b[0]] + b[1..];
    } else if a != "" {
      LessOrder(a[1..], "", "");
    }
  }

  lemma {:induction false} BeforeOrder(p: Path, q: Path, r: Path)
    ensures !Before(p, p)
    ensures p == q || Before(p, q) || Before(q, p)
    ensures !(Before(p, q) && Before(q, p))
    ensures Before(p, q) && Before(q, r) ==> Before(p, r)
    decreases |p| + |q| + |r|
  {
    if p != [] && q != [] {
      BeforeOrder(p[1..], q[1..], if r == [] then [] else r[1..]);
      assert p == [p[0]] + p[1..] && q == [q[0]] + q[1..];
      LessOrder(p[0], q[0], if r == [] then "" else r[0]);
    } else if p != [] {
      BeforeOrder(p[1..], [], []);
    }
  }

  lemma {:induction false} SiblingsBefore(dir: Path, p: Path, q: Path)
    requires dir < p && dir < q && Less(p[|dir|], q[|dir|])
    ensures Before(p, q)
  {
    if dir == [] {
      LessOrder(p[0], q[0], "");
    } else {
      SiblingsBefore(dir[1..], p[1..], q[1..]);
    }
  }

  // ---------------------------------------------------------------- files that give variables

  datatype Read = Data(data: string) | NotExist | Failed

  /** `fs.ReadFile`. */
  function ReadFile(host: Host, fs: Tree, p: Path): Read {
    match Real(host, fs, p)
    case None => Failed
    case Some(q) =>
      match Lstat(fs, q)
      case Missing => NotExist
      case Blocked => Failed
      case Found(n) => if n.kind.Reg? then Data(n.kind.data) else Failed
  }

  /** What reading the file at `p` and parsing it gives. */
  function Load(host: Host, fs: Tree, parse: string -> Option<Vars>, p: Path): Option<Vars> {
    match ReadFile(host, fs, p)
    case Data(d) => parse(d)
    case _ => None
  }

  /** What the files of a directory define, by path. */
  type Definitions = map<Path, Vars>

  predicate Defines(defs: Definitions, f: Path, k: string) {
    f in defs && k in defs[f]
  }

  ghost predicate IsLast(defs: Definitions, f: Path, k: string) {
    Defines(defs, f, k) && forall g :: Defines(defs, g, k) ==> !Before(f, g)
  }

  /** Each name that some file defines has the value the last of these gives it. */
  ghost predicate LastWins(defs: Definitions, vars: Vars) {
    && (forall k :: k in vars <==> exists f :: Defines(defs, f, k))
    && (forall f, k :: IsLast(defs, f, k) ==> k in vars && vars[k] == defs[f][k])
  }

  lemma {:induction false} LastExists(defs: Definitions, k: string, f: Path) returns (last: Path)
    requires Defines(defs, f, k)
    ensures IsLast(defs, last, k)
    decreases |defs.Keys|
  {
    var rest := defs - {f};
    if g :| Defines(rest, g, k) {
      assert rest.Keys == defs.Keys - {f};
      last := LastExists(rest, k, g);
      if Before(last, f) {
        LaterIsLast(defs, f, k, last);
        last := f;
      }
    } else {
      last := f;
      forall g | Defines(defs, g, k) ensures !Before(f, g) {
        assert g != f ==> Defines(rest, g, k);
        BeforeOrder(f, f, f);
      }
    }
  }

  lemma LaterIsLast(defs: Definitions, f: Path, k: string, last: Path)
    requires Defines(defs, f, k) && IsLast(defs - {f}, last, k) && Before(last, f)
    ensures IsLast(defs, f, k)
  {
    forall g | Defines(defs, g, k) ensures !Before(f, g) {
      if g == f {
        BeforeOrder(f, f, f);
      } else {
        assert Defines(defs - {f}, g, k);
        BeforeOrder(last, f, g);
      }
    }
  }

  /** There is one outcome. */
  lemma LastWinsIsUnique(defs: Definitions, a: Vars, b: Vars)
    requires LastWins(defs, a) && LastWins(defs, b)
    ensures a == b
  {
    forall k | k in a ensures k in b && a[k] == b[k] {
      var f :| Defines(defs, f, k);
      var last := LastExists(defs, k, f);
    }
    forall k | k in b ensures k in a {
      var f :| Defines(defs, f, k);
    }
  }

  lemma MergeLast(defs: Definitions, vars: Vars, f: Path, more: Vars)
    requires LastWins(defs, vars) && f !in defs && forall g :: g in defs ==> Before(g, f)
    ensures LastWins(defs[f := more], vars + more)
  {
    var all := defs[f := more];
    forall k ensures k in vars + more <==> exists g :: Defines(all, g, k) {
      if k in more {
        assert Defines(all, f, k);
      } else if k in vars {
        var g :| Defines(defs, g, k);
        assert Defines(all, g, k);
      } else if exists g :: Defines(all, g, k) {
        var g :| Defines(all, g, k);
        assert Defines(defs, g, k);
      }
    }
    forall g, k | IsLast(all, g, k) ensures k in vars + more && (vars + more)[k] == all[g][k] {
      if g != f {
        assert Defines(defs, g, k);
        assert !Defines(all, f, k);
        forall h | Defines(defs, h, k) ensures !Before(g, h) { assert Defines(all, h, k); }
        assert IsLast(defs, g, k);
      }
    }
  }

  // ---------------------------------------------------------------- the walk

  /** The files below `dir` under the given names. */
  function FilesIn(fs: Tree, dir: Path, names: set<string>): set<Path> {
    set p | p in fs && dir < p && p[|dir|] in names && !fs[p].kind.Dir?
  }

  function Files(fs: Tree, dir: Path): set<Path> {
    set p | p in fs && dir < p && !fs[p].kind.Dir?
  }

  function Parsed(host: Host, fs: Tree, parse: string -> Option<Vars>, files: set<Path>): Definitions {
    map p | p in files && Load(host, fs, parse, p).Some? :: Load(host, fs, parse, p).value
  }

  ghost predicate AllLoad(host: Host, fs: Tree, parse: string -> Option<Vars>, files: set<Path>) {
    forall p :: p in files ==> Load(host, fs, parse, p).Some?
  }

  /** The names in a directory. */
  function Names(fs: Tree, dir: Path): set<string> {
    set p | p in fs && |p| == |dir| + 1 && dir < p :: p[|dir|]
  }

  predicate Least(names: set<string>, n: string) {
    n in names && forall m :: m in names && m != n ==> Less(n, m)
  }

  lemma {:induction false} LeastExists(names: set<string>) returns (n: string)
    requires names != {}
    ensures Least(names, n)
  {
    n :| n in names;
    if names != {n} {
      var m := LeastExists(names - {n});
      LessOrder(n, m, n);
      if Less(m, n) {
        n := m;
      } else {
        forall k | k in names && k != n ensures Less(n, k) { LessOrder(n, m, k); }
      }
    }
  }

  lemma NameAbove(fs: Tree, dir: Path, p: Path)
    requires Valid(fs) && p in fs && dir < p
    ensures dir + [p[|dir|]] in fs && p[|dir|] in Names(fs, dir)
    ensures dir + [p[|dir|]] != p ==> IsDir(fs, dir + [p[|dir|]])
  {
    var q := dir + [p[|dir|]];
    assert q == p[..|q|];
    if q != p { AncestorsAreDirs(fs, q, p); }
  }

  lemma FilesAreUnderNames(fs: Tree, dir: Path)
    requires Valid(fs)
    ensures FilesIn(fs, dir, Names(fs, dir)) == Files(fs, dir)
  {
    forall p | p in Files(fs, dir) ensures p in FilesIn(fs, dir, Names(fs, dir)) {
      NameAbove(fs, dir, p);
    }
  }

  lemma NameInDir(fs: Tree, dir: Path, n: string)
    requires n in Names(fs, dir)
    ensures dir + [n] in fs
  {
    var p :| p in fs && |p| == |dir| + 1 && dir < p && p[|dir|] == n;
    assert p == dir + [n];
  }

  lemma FilesOfDir(fs: Tree, dir: Path, n: string)
    requires IsDir(fs, dir + [n])
    ensures FilesIn(fs, dir, {n}) == Files(fs, dir + [n])
  {
    var q := dir + [n];
    forall p | p in FilesIn(fs, dir, {n}) ensures p in Files(fs, q) {
      assert q <= p && p != q;
    }
    forall p | p in Files(fs, q) ensures p in FilesIn(fs, dir, {n}) {
      assert p[|dir|] == q[|dir|];
    }
  }

  lemma FilesOfFile(fs: Tree, dir: Path, n: string)
    requires Valid(fs) && dir + [n] in fs && !IsDir(fs, dir + [n])
    ensures FilesIn(fs, dir, {n}) == {dir + [n]}
  {
    var q := dir + [n];
    forall p | p in FilesIn(fs, dir, {n}) ensures p == q {
      NameAbove(fs, dir, p);
    }
    assert dir < q && q[|dir|] == n;
  }

  lemma FilesInOrder(fs: Tree, dir: Path, done: set<string>, n: string)
    requires forall m :: m in done ==> Less(m, n)
    ensures forall f, g :: f in FilesIn(fs, dir, done) && g in FilesIn(fs, dir, {n}) ==> Before(f, g)
  {
    forall f, g | f in FilesIn(fs, dir, done) && g in FilesIn(fs, dir, {n}) ensures Before(f, g) {
      SiblingsBefore(dir, f, g);
    }
  }

  /** One more name: its files come after those so far, and are added to them. */
  lemma OneMoreName(host: Host, fs: Tree, parse: string -> Option<Vars>, dir: Path, defs: Definitions,
                    done: set<string>, n: string)
    requires forall m :: m in done ==> Less(m, n)
    requires forall f, g :: f in defs && g in Files(fs, dir) ==> Before(f, g)
    ensures var so := defs + Parsed(host, fs, parse, FilesIn(fs, dir, done));
            && (forall f, g :: f in so && g in FilesIn(fs, dir, {n}) ==> Before(f, g))
            && defs + Parsed(host, fs, parse, FilesIn(fs, dir, done + {n}))
                == so + Parsed(host, fs, parse, FilesIn(fs, dir, {n}))
    ensures AllLoad(host, fs, parse, FilesIn(fs, dir, done + {n})) <==>
            AllLoad(host, fs, parse, FilesIn(fs, dir, done)) && AllLoad(host, fs, parse, FilesIn(fs, dir, {n}))
  {
    FilesInOrder(fs, dir, done, n);
    var a, b, c := FilesIn(fs, dir, done), FilesIn(fs, dir, {n}), FilesIn(fs, dir, done + {n});
    assert c == a + b;
    assert Parsed(host, fs, parse, c) == Parsed(host, fs, parse, a) + Parsed(host, fs, parse, b);
    forall g | g in b ensures g in Files(fs, dir) {}
  }

  /** The callback of `fs.WalkDir` over everything below `dir`, in lexical order: `defs` is what `vars` came from. */
  method WalkDir(host: Host, fs: Tree, parse: string -> Option<Vars>, dir: Path, vars: VarMap, ghost defs: Definitions)
    returns (ok: bool)
    requires Valid(fs) && IsDir(fs, dir) && LastWins(defs, vars.m)
    requires forall f, g :: f in defs && g in Files(fs, dir) ==> Before(f, g)
    modifies vars
    ensures ok <==> AllLoad(host, fs, parse, Files(fs, dir))
    ensures ok ==> LastWins(defs + Parsed(host, fs, parse, Files(fs, dir)), vars.m)
    decreases |Subtree(fs, dir)|
  {
    var todo := Names(fs, dir);
    ghost var done: set<string> := {};
    FilesAreUnderNames(fs, dir);
    assert FilesIn(fs, dir, {}) == {};
    assert defs + Parsed(host, fs, parse, {}) == defs;
    while todo != {}
      invariant done + todo == Names(fs, dir) && forall a, b :: a in done && b in todo ==> Less(a, b)
      invariant AllLoad(host, fs, parse, FilesIn(fs, dir, done))
      invariant LastWins(defs + Parsed(host, fs, parse, FilesIn(fs, dir, done)), vars.m)
      decreases |todo|
    {
      ghost var some := LeastExists(todo);
      var n :| Least(todo, n);
      assert Least(todo, n) && n in todo;
      OneMoreName(host, fs, parse, dir, defs, done, n);
      ok := WalkName(host, fs, parse, dir, n, vars, defs + Parsed(host, fs, parse, FilesIn(fs, dir, done)));
      if !ok {
        assert forall p :: p in FilesIn(fs, dir, {n}) ==> p in Files(fs, dir);
        return false;
      }
      todo, done := todo - {n}, done + {n};
    }
    assert done == Names(fs, dir);
    return true;
  }

  /** One name of a directory: a directory is walked in its turn, anything else is read, parsed and merged. */
  method WalkName(host: Host, fs: Tree, parse: string -> Option<Vars>, dir: Path, n: string, vars: VarMap,
                  ghost defs: Definitions)
    returns (ok: bool)
    requires Valid(fs) && IsDir(fs, dir) && n in Names(fs, dir) && LastWins(defs, vars.m)
    requires forall f, g :: f in defs && g in FilesIn(fs, dir, {n}) ==> Before(f, g)
    modifies vars
    ensures ok <==> AllLoad(host, fs, parse, FilesIn(fs, dir, {n}))
    ensures ok ==> LastWins(defs + Parsed(host, fs, parse, FilesIn(fs, dir, {n})), vars.m)
    decreases |Subtree(fs, dir)|, 0
  {
    var p := dir + [n];
    NameInDir(fs, dir, n);
    if fs[p].kind.Dir? {
      FilesOfDir(fs, dir, n);
      SmallerSubtree(fs, dir, n);
      ok := WalkDir(host, fs, parse, p, vars, defs);
    } else {
      FilesOfFile(fs, dir, n);
      var fileVars := Load(host, fs, parse, p);
      if fileVars.None? { return false; }
      MergeOne(host, fs, parse, p, defs, vars.m);
      vars.Merge(fileVars.value);
      ok := true;
    }
  }

  lemma MergeOne(host: Host, fs: Tree, parse: string -> Option<Vars>, p: Path, defs: Definitions, vars: Vars)
    requires LastWins(defs, vars) && (forall f :: f in defs ==> Before(f, p)) && Load(host, fs, parse, p).Some?
    ensures LastWins(defs + Parsed(host, fs, parse, {p}), vars + Load(host, fs, parse, p).value)
  {
    var v := Load(host, fs, parse, p).value;
    BeforeOrder(p, p, p);
    MergeLast(defs, vars, p, v);
    assert defs[p := v] == defs + Parsed(host, fs, parse, {p});
  }

  lemma SmallerSubtree(fs: Tree, dir: Path, n: string)
    requires IsDir(fs, dir)
    ensures |Subtree(fs, dir + [n])| < |Subtree(fs, dir)|
  {
    assert Subtree(fs, dir + [n]) <= Subtree(fs, dir) - {dir};
    SubsetSize(Subtree(fs, dir + [n]), Subtree(fs, dir) - {dir});
  }

  lemma {:induction false} SubsetSize<T>(a: set<T>, b: set<T>)
    requires a <= b
    ensures |a| <= |b|
  {
    if a != {} {
      var x :| x in a;
      SubsetSize(a - {x}, b - {x});
    }
  }

  // ---------------------------------------------------------------- where variables are looked for

  /** What `main` gives when there is neither a main.yml nor a main.yaml: nothing, a file, or a directory of files. */
  ghost predicate FromMain(host: Host, fs: Tree, parse: string -> Option<Vars>, main: Path, r: Option<Vars>) {
    if ReadFile(host, fs, main).NotExist? then r == Some(map[])
    else if Resolve(host, fs, main).None? then r == None
    else if !IsDir(fs, Resolve(host, fs, main).value) then r == Load(host, fs, parse, main)
    else
      var files := Files(fs, Resolve(host, fs, main).value);
      && (r.Some? <==> AllLoad(host, fs, parse, files))
      && (r.Some? ==> LastWins(Parsed(host, fs, parse, files), r.value))
  }

  method LoadMain(host: Host, fs: Tree, parse: string -> Option<Vars>, main: Path) returns (r: Option<Vars>)
    requires Valid(fs)
    ensures FromMain(host, fs, parse, main, r)
  {
    var read := ReadFile(host, fs, main);
    if read.NotExist? { return Some(map[]); }
    var dir := Resolve(host, fs, main);
    if dir.None? { return None; }
    if !IsDir(fs, dir.value) {
      return if read.Data? then parse(read.data) else None;
    }
    var vars := new VarMap(map[]);
    var ok := WalkDir(host, fs, parse, dir.value, vars, map[]);
    if !ok { return None; }
    assert map[] + Parsed(host, fs, parse, Files(fs, dir.value)) == Parsed(host, fs, parse, Files(fs, dir.value));
    return Some(vars.m);
  }

  /** `processVars`: the first of main.yml, main.yaml and main that exists, even if it cannot be read. */
  method ProcessVars(host: Host, fs: Tree, parse: string -> Option<Vars>, root: Path) returns (r: Option<Vars>)
    requires Valid(fs)
    ensures if !ReadFile(host, fs, root + ["main.yml"]).NotExist? then r == Load(host, fs, parse, root + ["main.yml"])
            else if !ReadFile(host, fs, root + ["main.yaml"]).NotExist?
            then r == Load(host, fs, parse, root + ["main.yaml"])
            else FromMain(host, fs, parse, root + ["main"], r)
  {
    var yml := ReadFile(host, fs, root + ["main.yml"]);
    if yml.Data? { return parse(yml.data); }
    if yml.Failed? { return None; }
    var yaml := ReadFile(host, fs, root + ["main.yaml"]);
    if yaml.Data? { return parse(yaml.data); }
    if yaml.Failed? { return None; }
    r := LoadMain(host, fs, parse, root + ["main"]);
  }

  // ---------------------------------------------------------------- "more nested wins"

  /** Every variable has the value that one of the most deeply nested files defining it gives. */
  ghost predicate NestedWins(defs: Definitions, vars: Vars) {
    forall k :: k in vars ==>
      exists f :: Defines(defs, f, k) && vars[k] == defs[f][k] && forall g :: Defines(defs, g, k) ==> |g| <= |f|
  }

  /** Deeper files come later in the walk. */
  ghost predicate DeeperIsLater(files: set<Path>) {
    forall f, g :: f in files && g in files && |f| < |g| ==> Before(f, g)
  }

  /** Whatever the files of a directory define, the more nested wins: just when deeper files come later. */
  lemma NestedWinsIffDeeperIsLater(files: set<Path>)
    ensures DeeperIsLater(files) <==>
            forall defs: Definitions, vars: Vars :: defs.Keys == files && LastWins(defs, vars) ==>
                NestedWins(defs, vars)
  {
    if DeeperIsLater(files) {
      forall defs: Definitions, vars: Vars | defs.Keys == files && LastWins(defs, vars) ensures NestedWins(defs, vars) {
        forall k | k in vars
          ensures exists f :: Defines(defs, f, k) && vars[k] == defs[f][k]
                              && forall g :: Defines(defs, g, k) ==> |g| <= |f|
        {
          var f :| Defines(defs, f, k);
          var last := LastExists(defs, k, f);
          forall g | Defines(defs, g, k) ensures |g| <= |last| {}
        }
      }
    } else {
      var f, g :| f in files && g in files && |f| < |g| && !Before(f, g);
      var defs, vars := ShallowerWins(files, f, g);
    }
  }

  /** A file that comes after a deeper one and conflicts with it is the one that wins. */
  lemma ShallowerWins(files: set<Path>, f: Path, g: Path) returns (defs: Definitions, vars: Vars)
    requires f in files && g in files && |f| < |g| && !Before(f, g)
    ensures defs.Keys == files && LastWins(defs, vars) && !NestedWins(defs, vars)
  {
    var deep, shallow := map["k" := Text("deep")], map["k" := Text("shallow")];
    defs := map p | p in files :: if p == f then shallow else if p == g then deep else map[];
    vars := shallow;
    OnlyTwoDefine(defs, f, g, deep, shallow);
    assert Defines(defs, g, "k") && "k" in vars;
    forall h | Defines(defs, h, "k") && vars["k"] == defs[h]["k"] ensures |h| < |g| {
      assert h == f;
    }
  }

  lemma OnlyTwoDefine(defs: Definitions, f: Path, g: Path, deep: Vars, shallow: Vars)
    requires f in defs && g in defs && f != g && !Before(f, g)
    requires deep == map["k" := Text("deep")] && shallow == map["k" := Text("shallow")]
    requires forall p :: p in defs ==> defs[p] == if p == f then shallow else if p == g then deep else map[]
    ensures LastWins(defs, shallow)
  {
    BeforeOrder(f, g, f);
    assert Defines(defs, f, "k");
  }

  /** a/x.yml is read before b.yml, so the less nested of the two wins. */
  lemma LessNestedExample(dir: Path)
    ensures !DeeperIsLater({dir + ["a", "x.yml"], dir + ["b.yml"]})
  {
    var f, g := dir + ["b.yml"], dir + ["a", "x.yml"];
    assert g[|dir|] == "a" && f[|dir|] == "b.yml" && Less("a", "b.yml");
    SiblingsBefore(dir, g, f);
    BeforeOrder(f, g, f);
  }

  // ---------------------------------------------------------------- in particular

  /** Names in a listing: the first difference decides, and a name comes before those it begins. */
  lemma {:induction false} LessByFirstDifference(p: string, a: char, b: char, x: string, y: string)
    ensures Less(p + [a] + x, p + [b] + y) <==> a < b || (a == b && Less(x, y))
    ensures Less(p, p + [a] + x) && !Less(p + [a] + x, p)
  {
    var s, t := p + [a] + x, p + [b] + y;
    if p == "" {
      assert s[0] == a && s[1..] == x && t[0] == b && t[1..] == y;
    } else {
      assert s[1..] == p[1..] + [a] + x && t[1..] == p[1..] + [b] + y;
      LessByFirstDifference(p[1..], a, b, x, y);
    }
  }

  /** The walk: the first difference decides, by name, and a directory comes before what is in it. */
  lemma {:induction false} BeforeByFirstDifference(dir: Path, a: string, b: string, x: Path, y: Path)
    ensures Before(dir + [a] + x, dir + [b] + y) <==> Less(a, b) || (a == b && Before(x, y))
    ensures Before(dir, dir + [a] + x) && !Before(dir + [a] + x, dir)
  {
    var p, q := dir + [a] + x, dir + [b] + y;
    if dir == [] {
      assert p[0] == a && p[1..] == x && q[0] == b && q[1..] == y;
      LessOrder(a, b, "");
    } else {
      assert p[1..] == dir[1..] + [a] + x && q[1..] == dir[1..] + [b] + y;
      BeforeByFirstDifference(dir[1..], a, b, x, y);
    }
  }

  /** In a place that no link leads to: a file reads as its data, a directory not at all, and a free name is absent. */
  lemma ReadPlain(host: Host, fs: Tree, dir: Path, n: string)
    requires Valid(fs) && IsDir(fs, dir) && (dir + [n] in fs ==> !fs[dir + [n]].kind.Link?)
    ensures ReadFile(host, fs, dir + [n]) ==
            if dir + [n] !in fs then NotExist
            else if fs[dir + [n]].kind.Reg? then Data(fs[dir + [n]].kind.data) else Failed
  {
    var p := dir + [n];
    forall k | 0 <= k <= |p| && p[..k] in fs ensures !fs[p[..k]].kind.Link? {
      if k < |dir| {
        assert p[..k] == dir[..k];
        AncestorsAreDirs(fs, dir[..k], dir);
      } else if k == |dir| {
        assert p[..k] == dir;
      } else {
        assert p[..k] == p;
      }
    }
    EnterPlain(host, fs, p, MAX_LINKS);
    assert Parent(p) == dir;
    if p !in fs { assert Lstat(fs, dir) == Found(fs[dir]); }
  }

  /** A file `main` gives what it parses to, a missing one gives no variables. */
  lemma MainPlain(host: Host, fs: Tree, parse: string -> Option<Vars>, dir: Path, r: Option<Vars>)
    requires Valid(fs) && IsDir(fs, dir)
    requires dir + ["main"] in fs ==> fs[dir + ["main"]].kind.Reg?
    ensures FromMain(host, fs, parse, dir + ["main"], r) <==>
            r == if dir + ["main"] !in fs then Some(map[]) else parse(fs[dir + ["main"]].kind.data)
  {
    ReadPlain(host, fs, dir, "main");
  }

  /** A file below `main` that gives `k` a value. */
  predicate Gives(host: Host, fs: Tree, parse: string -> Option<Vars>, main: Path, p: Path, k: string) {
    && p in fs && main < p && !fs[p].kind.Dir?
    && var vars := Load(host, fs, parse, p);
       vars.Some? && k in vars.value
  }

  lemma GivesIsDefines(host: Host, fs: Tree, parse: string -> Option<Vars>, main: Path, p: Path, k: string)
    ensures Defines(Parsed(host, fs, parse, Files(fs, main)), p, k) <==> Gives(host, fs, parse, main, p, k)
  {}

  /** A directory `main`: a name has what the last of the files below it giving it a value gives. */
  lemma MainDir(host: Host, fs: Tree, parse: string -> Option<Vars>, dir: Path, vars: Vars, k: string)
    requires Valid(fs) && IsDir(fs, dir) && IsDir(fs, dir + ["main"])
    requires FromMain(host, fs, parse, dir + ["main"], Some(vars))
    ensures k in vars <==> exists p :: Gives(host, fs, parse, dir + ["main"], p, k)
    ensures forall p :: Gives(host, fs, parse, dir + ["main"], p, k)
                        && (forall q :: Gives(host, fs, parse, dir + ["main"], q, k) ==> !Before(p, q))
                        ==> k in vars && vars[k] == Load(host, fs, parse, p).value[k]
  {
    var main := dir + ["main"];
    ReadPlain(host, fs, dir, "main");
    assert Resolve(host, fs, main) == Some(main);
    var defs := Parsed(host, fs, parse, Files(fs, main));
    assert LastWins(defs, vars);
    forall p ensures Defines(defs, p, k) <==> Gives(host, fs, parse, main, p, k) {
      GivesIsDefines(host, fs, parse, main, p, k);
    }
    forall p | Gives(host, fs, parse, main, p, k) && forall q :: Gives(host, fs, parse, main, q, k) ==> !Before(p, q)
      ensures k in vars && vars[k] == Load(host, fs, parse, p).value[k]
    {
      assert IsLast(defs, p, k);
    }
  }
}
