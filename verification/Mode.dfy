/**
 File permission modes: the octal notation and the symbolic notation
 (a subset of the symbolic mode of the chmod utility, POSIX.1-2017 XCU
 chapter 4, EXTENDED DESCRIPTION).
 */
module Mode {
  import opened Prelude

  datatype Class = User | Group | Other
  datatype Access = Read | Write | Exec
  datatype Bit = Bit(class_: Class, access: Access)

  /** A permission word, as the set of its bits: `|` is union, `&^` difference, `&` intersection. */
  type Perm = set<Bit>

  const EVERYBODY: set<Class> := {User, Group, Other}
  const EVERYTHING: set<Access> := {Read, Write, Exec}

  /** The bits of `accesses` for the classes of `who`. */
  function Bits(who: set<Class>, accesses: set<Access>): (r: Perm)
    ensures forall b :: b in r <==> b.class_ in who && b.access in accesses
  {
    set c, a | c in who && a in accesses :: Bit(c, a)
  }

  /** The word 0777. */
  const ALL: Perm := Bits(EVERYBODY, EVERYTHING)

  lemma AllBits(b: Bit)
    ensures b in ALL && b.class_ in EVERYBODY && b.access in EVERYTHING
  {
    assert b.class_.User? || b.class_.Group? || b.class_.Other?;
    assert b.access.Read? || b.access.Write? || b.access.Exec?;
  }

  function Weight(b: Bit): nat {
    match b
    case Bit(User, Read) => 256
    case Bit(User, Write) => 128
    case Bit(User, Exec) => 64
    case Bit(Group, Read) => 32
    case Bit(Group, Write) => 16
    case Bit(Group, Exec) => 8
    case Bit(Other, Read) => 4
    case Bit(Other, Write) => 2
    case Bit(Other, Exec) => 1
  }

  /**
   A file mode read from text: the permission bits and, in `high`, the value of the bits above
   them. Octal text may set those; the mode of a file never has any.
   */
  datatype FileMode = FileMode(high: nat, perm: Perm)

  const NO_MODE := FileMode(0, {})

  function FromNumber(n: nat): FileMode {
    FileMode(n / 512, set b | b in ALL && IsSet(n, b))
  }

  predicate IsSet(n: nat, b: Bit) {
    match b
    case Bit(User, Read) => n / 256 % 2 == 1
    case Bit(User, Write) => n / 128 % 2 == 1
    case Bit(User, Exec) => n / 64 % 2 == 1
    case Bit(Group, Read) => n / 32 % 2 == 1
    case Bit(Group, Write) => n / 16 % 2 == 1
    case Bit(Group, Exec) => n / 8 % 2 == 1
    case Bit(Other, Read) => n / 4 % 2 == 1
    case Bit(Other, Write) => n / 2 % 2 == 1
    case Bit(Other, Exec) => n % 2 == 1
  }

  function BitValue(m: Perm, b: Bit): nat {
    if b in m then Weight(b) else 0
  }

  function ToNumber(m: FileMode): nat {
    512 * m.high
    + BitValue(m.perm, Bit(User, Read)) + BitValue(m.perm, Bit(User, Write)) + BitValue(m.perm, Bit(User, Exec))
    + BitValue(m.perm, Bit(Group, Read)) + BitValue(m.perm, Bit(Group, Write)) + BitValue(m.perm, Bit(Group, Exec))
    + BitValue(m.perm, Bit(Other, Read)) + BitValue(m.perm, Bit(Other, Write)) + BitValue(m.perm, Bit(Other, Exec))
  }

  /** Splitting a number into bits loses nothing: modes are equal exactly when the numbers are. */
  lemma NumberOfBits(n: nat)
    ensures ToNumber(FromNumber(n)) == n
  {
    Halves(n);
    var p := FromNumber(n).perm;
    forall b ensures b in p <==> IsSet(n, b) { AllBits(b); }
    assert BitValue(p, Bit(User, Read)) == 256 * (n / 256 % 2);
    assert BitValue(p, Bit(User, Write)) == 128 * (n / 128 % 2);
    assert BitValue(p, Bit(User, Exec)) == 64 * (n / 64 % 2);
    assert BitValue(p, Bit(Group, Read)) == 32 * (n / 32 % 2);
    assert BitValue(p, Bit(Group, Write)) == 16 * (n / 16 % 2);
    assert BitValue(p, Bit(Group, Exec)) == 8 * (n / 8 % 2);
    assert BitValue(p, Bit(Other, Read)) == 4 * (n / 4 % 2);
    assert BitValue(p, Bit(Other, Write)) == 2 * (n / 2 % 2);
    assert BitValue(p, Bit(Other, Exec)) == n % 2;
  }

  lemma Halves(n: nat)
    ensures n / 256 % 2 == n / 256 - 2 * (n / 512) && n / 128 % 2 == n / 128 - 2 * (n / 256)
    ensures n / 64 % 2 == n / 64 - 2 * (n / 128) && n / 32 % 2 == n / 32 - 2 * (n / 64)
    ensures n / 16 % 2 == n / 16 - 2 * (n / 32) && n / 8 % 2 == n / 8 - 2 * (n / 16)
    ensures n / 4 % 2 == n / 4 - 2 * (n / 8) && n / 2 % 2 == n / 2 - 2 * (n / 4)
    ensures n % 2 == n - 2 * (n / 2)
  {
    HalvesHigh(n);
    HalvesLow(n);
  }

  lemma HalvesHigh(n: nat)
    ensures n / 256 % 2 == n / 256 - 2 * (n / 512) && n / 128 % 2 == n / 128 - 2 * (n / 256)
    ensures n / 64 % 2 == n / 64 - 2 * (n / 128) && n / 32 % 2 == n / 32 - 2 * (n / 64)
  {
    Half(n, 256, n / 512, n % 512);
    Half(n, 128, n / 256, n % 256);
    Half(n, 64, n / 128, n % 128);
    Half(n, 32, n / 64, n % 64);
  }

  lemma HalvesLow(n: nat)
    ensures n / 16 % 2 == n / 16 - 2 * (n / 32) && n / 8 % 2 == n / 8 - 2 * (n / 16)
    ensures n / 4 % 2 == n / 4 - 2 * (n / 8) && n / 2 % 2 == n / 2 - 2 * (n / 4)
    ensures n % 2 == n - 2 * (n / 2)
  {
    Half(n, 16, n / 32, n % 32);
    Half(n, 8, n / 16, n % 16);
    Half(n, 4, n / 8, n % 8);
    Half(n, 2, n / 4, n % 4);
  }

  lemma Half(n: nat, d: nat, q: nat, r: nat)
    requires r < 2 * d && n == d * (2 * q) + r
    ensures n / d % 2 == n / d - 2 * q
  {
    Doubled(d, q);
    if r < d {
      Quotient(n, d, 2 * q, r);
    } else {
      Quotient(n, d, 2 * q + 1, r - d);
    }
  }

  lemma Doubled(d: nat, q: nat)
    ensures d * (2 * q + 1) == d * (2 * q) + d
  {}

  lemma Quotient(n: nat, d: nat, q: nat, r: nat)
    requires r < d && n == d * q + r
    ensures n / d == q
  {
    var p, left := n / d, n % d;
    assert d * p + left == d * q + r;
    assert d * (p - q) == r - left && d * (q - p) == left - r;
    if p > q {
      AtLeastOnce(d, p - q);
    } else if p < q {
      AtLeastOnce(d, q - p);
    }
  }

  lemma AtLeastOnce(d: nat, k: nat)
    requires k >= 1
    ensures d * k >= d
  {
    assert d * k == d + d * (k - 1);
  }

  // ---------------------------------------------------------------- text

  /** `strings.SplitSeq(s, ",")`: never empty; `""` splits into one empty part. */
  function Split(s: string): (parts: seq<string>)
    ensures |parts| > 0
  {
    if s == "" then [""]
    else
      var rest := Split(s[1..]);
      if s[0] == ',' then [""] + rest else [[s[0]] + rest[0]] + rest[1..]
  }

  /** Unicode white space, as `strings.TrimSpace` removes it. */
  predicate IsSpace(c: char) {
    || c in {'\t', '\n', '\U{0B}', '\U{0C}', '\r', ' ', '\U{85}', '\U{A0}', '\U{1680}'}
    || '\U{2000}' <= c <= '\U{200A}'
    || c in {'\U{2028}', '\U{2029}', '\U{202F}', '\U{205F}', '\U{3000}'}
  }

  function TrimLeft(s: string): string {
    if s != "" && IsSpace(s[0]) then TrimLeft(s[1..]) else s
  }

  function TrimRight(s: string): string {
    if s != "" && IsSpace(s[|s| - 1]) then TrimRight(s[..|s| - 1]) else s
  }

  function Trim(s: string): string {
    TrimRight(TrimLeft(s))
  }

  predicate IsOp(c: char) {
    c == '=' || c == '+' || c == '-'
  }

  /** `strings.IndexAny(s, "=+-")`, with `|s|` for "absent". */
  function OpIndex(s: string): (i: nat)
    ensures i <= |s|
    ensures forall k :: 0 <= k < i ==> !IsOp(s[k])
    ensures i < |s| ==> IsOp(s[i])
  {
    if s == "" || IsOp(s[0]) then 0 else 1 + OpIndex(s[1..])
  }

  // ---------------------------------------------------------------- meaning of a symbolic mode

  /** One comma-separated part: for whom, what to do, and which accesses. */
  datatype Clause = Clause(who: set<Class>, op: char, accesses: set<Access>)

  /** `a` anywhere names everybody; letters that name nobody are ignored. */
  function Who(who: string): set<Class> {
    if 'a' in who then EVERYBODY
    else (if 'u' in who then {User} else {}) + (if 'g' in who then {Group} else {})
         + (if 'o' in who then {Other} else {})
  }

  function Accesses(perms: string): set<Access> {
    (if 'r' in perms then {Read} else {}) + (if 'w' in perms then {Write} else {})
    + (if 'x' in perms then {Exec} else {})
  }

  predicate OnlyAccesses(perms: string) {
    forall k :: 0 <= k < |perms| ==> perms[k] == 'r' || perms[k] == 'w' || perms[k] == 'x'
  }

  /** The clauses of a specification, or `None` when it is rejected. Blank parts are skipped. */
  function Clauses(parts: seq<string>): Option<seq<Clause>> {
    if parts == [] then Some([])
    else
      var part := Trim(parts[|parts| - 1]);
      var before := Clauses(parts[..|parts| - 1]);
      if before.None? || part == "" then before
      else
        var i := OpIndex(part);
        if i >= |part| - 1 || !OnlyAccesses(part[i + 1..]) then None
        else Some(before.value + [Clause(Who(part[..i]), part[i], Accesses(part[i + 1..]))])
  }

  function Parse(spec: string): Option<seq<Clause>> {
    Clauses(Split(spec))
  }

  /** What a clause does to one permission: grants it, takes it away, or does not address it. */
  function Effect(cl: Clause, b: Bit): Option<bool> {
    if b.class_ !in cl.who then None
    else if cl.op == '=' then Some(b.access in cl.accesses)
    else if b.access !in cl.accesses then None
    else Some(cl.op == '+')
  }

  /** The permission after the clauses: the last one that addresses it decides. */
  function LastWins(cls: seq<Clause>, b: Bit, before: bool): bool {
    if cls == [] then before
    else
      match Effect(cls[|cls| - 1], b)
      case Some(granted) => granted
      case None => LastWins(cls[..|cls| - 1], b, before)
  }

  // ---------------------------------------------------------------- closed form

  /** The map m -> (m & keep) | give. */
  datatype Mask = Mask(keep: Perm, give: Perm) {
    function On(m: Perm): Perm { m * keep + give }
  }

  function ClauseMask(cl: Clause): Mask {
    var bits := Bits(cl.who, cl.accesses);
    if cl.op == '+' then Mask(ALL - bits, bits)
    else if cl.op == '-' then Mask(ALL - bits, {})
    else Mask(ALL - Bits(cl.who, EVERYTHING), bits)
  }

  function MaskOf(cls: seq<Clause>): Mask {
    if cls == [] then Mask(ALL, {})
    else
      var m, n := MaskOf(cls[..|cls| - 1]), ClauseMask(cls[|cls| - 1]);
      Mask(m.keep * n.keep, m.give * n.keep + n.give)
  }

  /** The mode a specification computes from `current`; `None` when it is rejected. */
  function Evaluate(spec: string, current: Perm): Option<Perm> {
    match Parse(spec)
    case None => None
    case Some(cls) => Some(MaskOf(cls).On(current))
  }

  lemma ClauseMaskEffect(cl: Clause, m: Perm, b: Bit)
    requires IsOp(cl.op)
    ensures b in ClauseMask(cl).On(m) <==> match Effect(cl, b) { case Some(g) => g case None => b in m }
    ensures ClauseMask(cl).keep !! ClauseMask(cl).give
  {
    forall x ensures x in ALL && x.access in EVERYTHING { AllBits(x); }
  }

  lemma {:induction false} ClausesHaveOps(parts: seq<string>)
    ensures Clauses(parts).Some? ==> forall k :: 0 <= k < |Clauses(parts).value| ==> IsOp(Clauses(parts).value[k].op)
  {
    if parts != [] {
      ClausesHaveOps(parts[..|parts| - 1]);
    }
  }

  /** The closed form and the reading "the last clause addressing a permission wins" agree. */
  lemma {:induction false} MaskIsLastWins(cls: seq<Clause>, m: Perm, b: Bit)
    requires forall k :: 0 <= k < |cls| ==> IsOp(cls[k].op)
    ensures b in MaskOf(cls).On(m) <==> LastWins(cls, b, b in m)
    ensures MaskOf(cls).keep !! MaskOf(cls).give
  {
    AllBits(b);
    if cls != [] {
      var before, last := cls[..|cls| - 1], cls[|cls| - 1];
      MaskIsLastWins(before, m, b);
      ClauseMaskEffect(last, MaskOf(before).On(m), b);
    }
  }

  // ---------------------------------------------------------------- main results

  /** For every permission of every starting mode, the last clause addressing it decides. */
  lemma EvaluateIsLastWins(spec: string, current: Perm)
    ensures Evaluate(spec, current).Some? <==> Parse(spec).Some?
    ensures Parse(spec).Some? ==>
              forall b :: b in Evaluate(spec, current).value <==> LastWins(Parse(spec).value, b, b in current)
  {
    ClausesHaveOps(Split(spec));
    if Parse(spec).Some? {
      forall b ensures b in Evaluate(spec, current).value <==> LastWins(Parse(spec).value, b, b in current) {
        MaskIsLastWins(Parse(spec).value, current, b);
      }
    }
  }

  /** Every accepted specification is one map m -> (m & keep) | give with keep and give disjoint. */
  lemma ClosedForm(spec: string) returns (mask: Mask)
    requires Parse(spec).Some?
    ensures mask.keep !! mask.give && mask.keep + mask.give <= ALL
    ensures forall m :: Evaluate(spec, m) == Some(mask.On(m))
  {
    mask := MaskOf(Parse(spec).value);
    ClausesHaveOps(Split(spec));
    MaskIsLastWins(Parse(spec).value, {}, Bit(User, Read));
    forall b ensures b in ALL { AllBits(b); }
  }

  /** Applying a specification twice equals applying it once. */
  lemma EvaluateIdempotent(spec: string, current: Perm)
    requires Evaluate(spec, current).Some?
    ensures Evaluate(spec, Evaluate(spec, current).value) == Evaluate(spec, current)
  {
    var mask := ClosedForm(spec);
    assert mask.On(mask.On(current)) == mask.On(current);
  }

  lemma {:induction false} LastWinsUnaddressed(cls: seq<Clause>, b: Bit, before: bool)
    requires forall k :: 0 <= k < |cls| ==> b.class_ !in cls[k].who
    ensures LastWins(cls, b, before) == before
  {
    if cls != [] {
      LastWinsUnaddressed(cls[..|cls| - 1], b, before);
    }
  }

  /** A class no clause names keeps its permissions. */
  lemma UnnamedClassUntouched(spec: string, current: Perm, b: Bit)
    requires Parse(spec).Some?
    requires forall k :: 0 <= k < |Parse(spec).value| ==> b.class_ !in Parse(spec).value[k].who
    ensures b in Evaluate(spec, current).value <==> b in current
  {
    EvaluateIsLastWins(spec, current);
    LastWinsUnaddressed(Parse(spec).value, b, b in current);
  }

  // ---------------------------------------------------------------- the loops of NewModeFromSpec

  lemma MorePerms(perms: string, letter: char)
    ensures Accesses(perms + [letter]) == Accesses(perms) + Accesses([letter])
    ensures OnlyAccesses(perms + [letter]) <==> OnlyAccesses(perms) && OnlyAccesses([letter])
  {
    assert forall c :: c in perms + [letter] <==> c in perms || c in [letter];
    assert (perms + [letter])[..|perms|] == perms;
    assert (perms + [letter])[|perms|] == letter;
  }

  /** The bits one access adds, class by class. */
  lemma BitsGrow(who: set<Class>, accesses: set<Access>, a: Access)
    ensures Bits(who, accesses + {a})
         == Bits(who, accesses) + (if User in who then {Bit(User, a)} else {})
            + (if Group in who then {Bit(Group, a)} else {}) + (if Other in who then {Bit(Other, a)} else {})
  {
    forall b: Bit ensures b in ALL && b.class_ in EVERYBODY { AllBits(b); }
  }

  lemma OneMorePerm(who: set<Class>, perms: string, j: nat, a: Access)
    requires j < |perms| && OnlyAccesses(perms[..j]) && OnlyAccesses([perms[j]]) && Accesses([perms[j]]) == {a}
    ensures OnlyAccesses(perms[..j + 1])
    ensures Bits(who, Accesses(perms[..j + 1]))
         == Bits(who, Accesses(perms[..j])) + (if User in who then {Bit(User, a)} else {})
            + (if Group in who then {Bit(Group, a)} else {}) + (if Other in who then {Bit(Other, a)} else {})
  {
    assert perms[..j + 1] == perms[..j] + [perms[j]];
    MorePerms(perms[..j], perms[j]);
    BitsGrow(who, Accesses(perms[..j]), a);
  }

  /** The mask of a permission list for the classes in `who`; `None` on another letter. */
  method PermissionMask(who: set<Class>, perms: string) returns (mask: Option<Perm>)
    ensures mask == if OnlyAccesses(perms) then Some(Bits(who, Accesses(perms))) else None
  {
    var bits: Perm := {};
    for j := 0 to |perms|
      invariant OnlyAccesses(perms[..j])
      invariant bits == Bits(who, Accesses(perms[..j]))
    {
      var letter := perms[j];
      if letter != 'r' && letter != 'w' && letter != 'x' {
        return None;
      }
      var access := if letter == 'r' then Read else if letter == 'w' then Write else Exec;
      OneMorePerm(who, perms, j, access);
      if User in who { bits := bits + {Bit(User, access)}; }
      if Group in who { bits := bits + {Bit(Group, access)}; }
      if Other in who { bits := bits + {Bit(Other, access)}; }
    }
    assert perms[..|perms|] == perms;
    return Some(bits);
  }

  /** The operator switch: what one clause does to the mode being computed. */
  method ApplyClause(mode: Perm, who: set<Class>, op: char, accesses: set<Access>, mask: Perm) returns (r: Perm)
    requires IsOp(op) && mask == Bits(who, accesses)
    ensures r == ClauseMask(Clause(who, op, accesses)).On(mode)
  {
    forall b: Bit ensures b in ALL && b.class_ in EVERYBODY && b.access in EVERYTHING { AllBits(b); }
    if op == '+' {
      return mode + mask;
    } else if op == '-' {
      return mode - mask;
    }
    r := mode;
    if User in who { r := r - Bits({User}, EVERYTHING) + mask * Bits({User}, EVERYTHING); }
    if Group in who { r := r - Bits({Group}, EVERYTHING) + mask * Bits({Group}, EVERYTHING); }
    if Other in who { r := r - Bits({Other}, EVERYTHING) + mask * Bits({Other}, EVERYTHING); }
  }

  /** `NewModeFromSpec`, from the permissions `current` of the file it stats. */
  method NewModeFromSpec(current: Perm, spec: string) returns (r: Option<Perm>)
    ensures r == Evaluate(spec, current)
  {
    var mode := current;
    var parts := Split(spec);
    assert mode == Mask(ALL, {}).On(current) by { forall b ensures b in ALL { AllBits(b); } }
    for k := 0 to |parts|
      invariant Clauses(parts[..k]).Some? && mode == MaskOf(Clauses(parts[..k]).value).On(current)
    {
      OneMorePart(parts, k, current);
      var part := Trim(parts[k]);
      if part != "" {
        var i := OpIndex(part);
        if i >= |part| - 1 { return None; }
        var who := Who(part[..i]);
        var mask := PermissionMask(who, part[i + 1..]);
        if mask.None? { return None; }
        mode := ApplyClause(mode, who, part[i], Accesses(part[i + 1..]), mask.value);
      }
    }
    assert parts[..|parts|] == parts;
    return Some(mode);
  }

  /** What part `k` adds to the clauses before it; if it is no clause, the whole is rejected. */
  lemma OneMorePart(parts: seq<string>, k: nat, current: Perm)
    requires k < |parts| && Clauses(parts[..k]).Some?
    ensures Clauses(parts[..k + 1]).None? ==> Clauses(parts).None?
    ensures var part, before := Trim(parts[k]), Clauses(parts[..k]).value;
            var i := OpIndex(part);
            if part == "" then Clauses(parts[..k + 1]) == Some(before)
            else if i >= |part| - 1 || !OnlyAccesses(part[i + 1..]) then Clauses(parts[..k + 1]).None?
            else
              var cl := Clause(Who(part[..i]), part[i], Accesses(part[i + 1..]));
              && Clauses(parts[..k + 1]) == Some(before + [cl])
              && MaskOf(before + [cl]).On(current) == ClauseMask(cl).On(MaskOf(before).On(current))
  {
    assert parts[..k + 1][..k] == parts[..k];
    var part, before := Trim(parts[k]), Clauses(parts[..k]).value;
    if Clauses(parts[..k + 1]).None? {
      ClausesFail(parts, k + 1);
    } else if part != "" {
      var i := OpIndex(part);
      MaskSnoc(before, Clause(Who(part[..i]), part[i], Accesses(part[i + 1..])), current);
    }
  }

  lemma MaskSnoc(before: seq<Clause>, cl: Clause, m: Perm)
    ensures MaskOf(before + [cl]).On(m) == ClauseMask(cl).On(MaskOf(before).On(m))
  {
    assert (before + [cl])[..|before|] == before;
  }

  /** Once a prefix of the parts is rejected, so is the whole. */
  lemma {:induction false} ClausesFail(parts: seq<string>, k: nat)
    requires k <= |parts| && Clauses(parts[..k]).None?
    ensures Clauses(parts).None?
  {
    if k == |parts| {
      assert parts[..k] == parts;
    } else {
      assert parts[..|parts| - 1][..k] == parts[..k];
      ClausesFail(parts[..|parts| - 1], k);
    }
  }
}
