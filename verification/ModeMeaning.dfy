/** What the text of a symbolic mode means, letter by letter, part by part. */
module ModeMeaning {
  import opened Prelude
  import opened Mode
  import opened ModeText

  function ClassLetter(c: Class): char {
    match c case User => 'u' case Group => 'g' case Other => 'o'
  }

  function AccessLetter(a: Access): char {
    match a case Read => 'r' case Write => 'w' case Exec => 'x'
  }

  predicate OneOfRwx(c: char) {
    c == 'r' || c == 'w' || c == 'x'
  }

  /** A letter that can stand before the operator of a part. */
  predicate Wordy(c: char) {
    c != '+' && c != '-' && c != '=' && c != ',' && !IsSpace(c)
  }

  // ---------------------------------------------------------------- one part

  /** What one more part adds. */
  function Added(before: Option<seq<Clause>>, part: string): Option<seq<Clause>> {
    if before.None? || part == "" then before
    else
      var i := OpIndex(part);
      if i >= |part| - 1 || !OnlyAccesses(part[i + 1..]) then None
      else Some(before.value + [Clause(Who(part[..i]), part[i], Accesses(part[i + 1..]))])
  }

  lemma ClausesSnoc(parts: seq<string>, p: string)
    ensures Clauses(parts + [p]) == Added(Clauses(parts), Trim(p))
  {
    assert (parts + [p])[..|parts|] == parts;
  }

  lemma {:induction false} FirstOp(who: string, op: char, perms: string)
    requires (forall k :: 0 <= k < |who| ==> Wordy(who[k])) && IsOp(op)
    ensures OpIndex(who + [op] + perms) == |who|
  {
    var s := who + [op] + perms;
    if who != "" {
      assert s[1..] == who[1..] + [op] + perms;
      FirstOp(who[1..], op, perms);
    }
  }

  /** A part without a comma, and without space at its ends, is taken whole. */
  lemma WholePart(s: string)
    requires s != "" && ',' !in s && !IsSpace(s[0]) && !IsSpace(s[|s| - 1])
    ensures Parse(s) == Added(Some([]), s)
  {
    SplitSingle(s);
    TrimNothing(s);
    ClausesSnoc([], s);
    assert [] + [s] == [s] && Clauses([]) == Some([]);
  }

  lemma PartText(who: string, op: char, perms: string)
    requires (forall k :: 0 <= k < |who| ==> Wordy(who[k])) && IsOp(op)
    requires forall k :: 0 <= k < |perms| ==> perms[k] != ',' && !IsSpace(perms[k])
    ensures var s := who + [op] + perms;
            && s != "" && ',' !in s && !IsSpace(s[0]) && !IsSpace(s[|s| - 1])
            && OpIndex(s) == |who| && s[..|who|] == who && s[|who|] == op && s[|who| + 1..] == perms
  {
    FirstOp(who, op, perms);
    var s := who + [op] + perms;
    forall k | 0 <= k < |s| ensures s[k] != ',' && !IsSpace(s[k]) {
      if k < |who| {
        assert s[k] == who[k];
      } else if k > |who| {
        assert s[k] == perms[k - |who| - 1];
      }
    }
    assert s[..|who|] == who && s[|who| + 1..] == perms;
  }

  /** Whether a permission is granted after one part: `named` and `listed` are about its letters. */
  predicate Granted(op: char, named: bool, listed: bool, before: bool) {
    if op == '=' then (if named then listed else before)
    else if named && listed then op == '+'
    else before
  }

  lemma ClauseBit(who: string, op: char, perms: string, m: Perm, b: Bit)
    requires op == '+' || op == '-' || op == '='
    ensures b in MaskOf([Clause(Who(who), op, Accesses(perms))]).On(m) <==>
            Granted(op, ClassLetter(b.class_) in who || 'a' in who, AccessLetter(b.access) in perms, b in m)
  {
    var cl := Clause(Who(who), op, Accesses(perms));
    MaskIsLastWins([cl], m, b);
    assert [cl][..0] == [] && LastWins([], b, b in m) == (b in m);
    assert b.class_ in cl.who <==> ClassLetter(b.class_) in who || 'a' in who;
    assert b.access in cl.accesses <==> AccessLetter(b.access) in perms;
  }

  /**
   One part: the operator grants, takes away or sets exactly the accesses whose letters follow it,
   for exactly the classes whose letters, or an `a`, stand before it.
   */
  lemma ClauseText(who: string, op: char, perms: string, m: Perm)
    requires (forall k :: 0 <= k < |who| ==> Wordy(who[k])) && (op == '+' || op == '-' || op == '=')
    requires perms != "" && forall k :: 0 <= k < |perms| ==> OneOfRwx(perms[k])
    ensures var r := Evaluate(who + [op] + perms, m);
            && r.Some?
            && forall b: Bit :: b in r.value <==>
                 Granted(op, ClassLetter(b.class_) in who || 'a' in who, AccessLetter(b.access) in perms, b in m)
  {
    var s := who + [op] + perms;
    forall k | 0 <= k < |perms| ensures perms[k] != ',' && !IsSpace(perms[k]) { assert OneOfRwx(perms[k]); }
    PartText(who, op, perms);
    WholePart(s);
    assert OnlyAccesses(perms) by { forall k | 0 <= k < |perms| ensures OneOfRwx(perms[k]) {} }
    var cl := Clause(Who(who), op, Accesses(perms));
    assert Added(Some([]), s) == Some([] + [cl]) && [] + [cl] == [cl];
    assert Evaluate(s, m) == Some(MaskOf([cl]).On(m));
    forall b: Bit
      ensures b in MaskOf([cl]).On(m) <==>
              Granted(op, ClassLetter(b.class_) in who || 'a' in who, AccessLetter(b.access) in perms, b in m)
    {
      ClauseBit(who, op, perms, m, b);
    }
  }

  /** A part is refused exactly when its operator ends it or another letter follows. */
  lemma RefusedText(who: string, op: char, perms: string, m: Perm)
    requires (forall k :: 0 <= k < |who| ==> Wordy(who[k])) && (op == '+' || op == '-' || op == '=')
    requires forall k :: 0 <= k < |perms| ==> perms[k] != ',' && !IsSpace(perms[k])
    ensures Evaluate(who + [op] + perms, m).None? <==>
        perms == "" || exists k :: 0 <= k < |perms| && !OneOfRwx(perms[k])
  {
    PartText(who, op, perms);
    WholePart(who + [op] + perms);
    assert OnlyAccesses(perms) <==> forall k :: 0 <= k < |perms| ==> OneOfRwx(perms[k]);
  }

  /** Text without an operator is refused. */
  lemma NoOperator(who: string, m: Perm)
    requires who != "" && forall k :: 0 <= k < |who| ==> Wordy(who[k])
    ensures Evaluate(who, m).None?
  {
    assert Wordy(who[0]) && Wordy(who[|who| - 1]);
    WholePart(who);
    assert OpIndex(who) == |who|;
  }

  // ---------------------------------------------------------------- several parts

  lemma {:induction false} SplitJoined(s: string, t: string)
    ensures Split(s + "," + t) == Split(s) + Split(t)
  {
    var u := s + "," + t;
    if s == "" {
      assert u[1..] == t;
    } else {
      assert u[1..] == s[1..] + "," + t;
      SplitJoined(s[1..], t);
    }
  }

  lemma {:induction false} ClausesJoined(a: seq<string>, b: seq<string>)
    ensures Clauses(a + b) ==
            if Clauses(a).None? || Clauses(b).None? then None else Some(Clauses(a).value + Clauses(b).value)
    decreases |b|
  {
    if b == [] {
      assert a + b == a && Clauses(b) == Some([]);
      assert Clauses(a).Some? ==> Clauses(a).value + [] == Clauses(a).value;
    } else {
      var init, last := b[..|b| - 1], b[|b| - 1];
      ClausesJoined(a, init);
      ClausesSnoc(a + init, last);
      ClausesSnoc(init, last);
      assert a + b == (a + init) + [last] && b == init + [last];
      if Clauses(a).Some? && Clauses(init).Some? {
        AddedAfter(Clauses(a).value, Clauses(init).value, Trim(last));
      }
    }
  }

  lemma AddedAfter(a: seq<Clause>, b: seq<Clause>, part: string)
    ensures Added(Some(a + b), part) ==
            if Added(Some(b), part).None? then None else Some(a + Added(Some(b), part).value)
  {
    var i := OpIndex(part);
    if part != "" && !(i >= |part| - 1 || !OnlyAccesses(part[i + 1..])) {
      var last := Clause(Who(part[..i]), part[i], Accesses(part[i + 1..]));
      assert a + (b + [last]) == (a + b) + [last];
    }
  }

  lemma {:induction false} MasksJoined(a: seq<Clause>, b: seq<Clause>, m: Perm)
    ensures MaskOf(a + b).On(m) == MaskOf(b).On(MaskOf(a).On(m))
    decreases |b|
  {
    if b == [] {
      assert a + b == a;
      forall x ensures x in ALL { AllBits(x); }
    } else {
      var n := |b| - 1;
      assert a + b == (a + b[..n]) + [b[n]] && b == b[..n] + [b[n]];
      MasksJoined(a, b[..n], m);
      MaskSnoc(a + b[..n], b[n], m);
      MaskSnoc(b[..n], b[n], MaskOf(a).On(m));
    }
  }

  /** Parts separated by commas act one after the other; one that is refused refuses the whole. */
  lemma SequenceText(s: string, t: string, m: Perm)
    ensures Evaluate(s + "," + t, m) ==
            if Evaluate(s, m).None? then None else Evaluate(t, Evaluate(s, m).value)
  {
    SplitJoined(s, t);
    ClausesJoined(Split(s), Split(t));
    if Parse(s).Some? && Parse(t).Some? {
      MasksJoined(Parse(s).value, Parse(t).value, m);
    }
  }

  // ---------------------------------------------------------------- blanks

  lemma {:induction false} SameTrimmed(a: seq<string>, b: seq<string>)
    requires |a| == |b| && forall k :: 0 <= k < |a| ==> Trim(a[k]) == Trim(b[k])
    ensures Clauses(a) == Clauses(b)
    decreases |a|
  {
    if a != [] {
      SameTrimmed(a[..|a| - 1], b[..|b| - 1]);
    }
  }

  lemma {:induction false} TrimLeftSnoc(s: string, c: char)
    requires IsSpace(c)
    ensures TrimLeft(s + [c]) == if TrimLeft(s) == "" then "" else TrimLeft(s) + [c]
  {
    var t := s + [c];
    if s == "" {
      assert t[1..] == "" && TrimLeft("") == "";
    } else {
      assert t[1..] == s[1..] + [c];
      if IsSpace(s[0]) { TrimLeftSnoc(s[1..], c); }
    }
  }

  lemma TrimSnoc(s: string, c: char)
    requires IsSpace(c)
    ensures Trim(s + [c]) == Trim(s)
  {
    TrimLeftSnoc(s, c);
    var t := TrimLeft(s);
    if t != "" {
      assert (t + [c])[..|t|] == t;
    }
  }

  /** The last of some parts with `c` after it. */
  function LastWith(p: seq<string>, c: char): seq<string>
    requires |p| > 0
  {
    p[..|p| - 1] + [p[|p| - 1] + [c]]
  }

  lemma {:induction false} SplitSnoc(s: string, c: char)
    requires c != ','
    ensures Split(s + [c]) == LastWith(Split(s), c)
  {
    var t := s + [c];
    if s == "" {
      assert t[1..] == "" && Split("") == [""];
      assert [t[0]] + "" == "" + [c] && t[0] == c;
    } else {
      assert t[1..] == s[1..] + [c];
      SplitSnoc(s[1..], c);
      LastOfCons(Split(s[1..]), s[0], c);
    }
  }

  lemma LastOfCons(q: seq<string>, d: char, c: char)
    requires |q| > 0
    ensures [""] + LastWith(q, c) == LastWith([""] + q, c)
    ensures [[d] + LastWith(q, c)[0]] + LastWith(q, c)[1..] == LastWith([[d] + q[0]] + q[1..], c)
  {
    if |q| == 1 {
      assert [d] + (q[0] + [c]) == ([d] + q[0]) + [c];
    }
  }

  lemma TrailingBlank(s: string, c: char, m: Perm)
    requires IsSpace(c)
    ensures Evaluate(s + [c], m) == Evaluate(s, m)
  {
    var p := Split(s);
    SplitSnoc(s, c);
    TrimSnoc(p[|p| - 1], c);
    forall k | 0 <= k < |p| ensures Trim(LastWith(p, c)[k]) == Trim(p[k]) {}
    SameTrimmed(LastWith(p, c), p);
  }

  lemma LeadingBlank(s: string, c: char, m: Perm)
    requires IsSpace(c)
    ensures Evaluate([c] + s, m) == Evaluate(s, m)
  {
    var p := Split(s);
    assert ([c] + s)[1..] == s;
    var q := [[c] + p[0]] + p[1..];
    assert Split([c] + s) == q;
    assert ([c] + p[0])[1..] == p[0];
    forall k | 0 <= k < |p| ensures Trim(q[k]) == Trim(p[k]) {}
    SameTrimmed(q, p);
  }

  /** White space before or after a text means nothing, and blank text changes nothing. */
  lemma BlanksMeanNothing(s: string, c: char, m: Perm)
    requires IsSpace(c)
    ensures Evaluate([c] + s, m) == Evaluate(s, m) && Evaluate(s + [c], m) == Evaluate(s, m)
    ensures Evaluate("", m) == Some(m)
  {
    LeadingBlank(s, c, m);
    TrailingBlank(s, c, m);
    assert Split("") == [""] && Clauses([]) == Some([]);
    ClausesSnoc([], "");
    assert [] + [""] == [""] && Trim("") == "";
    assert Parse("") == Some([]);
    forall x ensures x in ALL { AllBits(x); }
    assert m * ALL + {} == m;
  }

  // ---------------------------------------------------------------- in numbers

  /** The nine bits of a number. */
  lemma BitsOf(n: nat, b: Bit)
    ensures b in FromNumber(n).perm <==> IsSet(n, b)
  {
    AllBits(b);
  }

  /** The nine permissions in octal, from 0400 to 0001. */
  lemma NineBits(b: Bit)
    ensures FromNumber(match b
                       case Bit(User, Read) => 256 case Bit(User, Write) => 128 case Bit(User, Exec) => 64
                       case Bit(Group, Read) => 32 case Bit(Group, Write) => 16 case Bit(Group, Exec) => 8
                       case Bit(Other, Read) => 4 case Bit(Other, Write) => 2 case Bit(Other, Exec) => 1).perm == {b}
  {
    forall x: Bit ensures x in ALL { AllBits(x); }
    assert forall x: Bit :: x.class_.User? || x.class_.Group? || x.class_.Other?;
  }

  /** g+w on 0644 gives 0664. */
  lemma GroupWrite()
    ensures Evaluate("g+w", FromNumber(420).perm) == Some(FromNumber(436).perm)
  {
    assert "g" + "+" + "w" == "g+w";
    ClauseText("g", '+', "w", FromNumber(420).perm);
    forall b: Bit ensures b in Evaluate("g+w", FromNumber(420).perm).value <==> b in FromNumber(436).perm {
      GroupWriteBit(b);
    }
    assert Evaluate("g+w", FromNumber(420).perm).value == FromNumber(436).perm;
  }

  lemma GroupWriteBit(b: Bit)
    ensures Granted('+', ClassLetter(b.class_) in "g" || 'a' in "g", AccessLetter(b.access) in "w",
                    b in FromNumber(420).perm)
       <==> b in FromNumber(436).perm
  {
    BitsOf(420, b);
    BitsOf(436, b);
  }

  /** a=rw on 0444 gives 0666. */
  lemma AllReadWrite()
    ensures Evaluate("a=rw", FromNumber(292).perm) == Some(FromNumber(438).perm)
  {
    assert "a" + "=" + "rw" == "a=rw";
    ClauseText("a", '=', "rw", FromNumber(292).perm);
    forall b: Bit ensures b in Evaluate("a=rw", FromNumber(292).perm).value <==> b in FromNumber(438).perm {
      AllReadWriteBit(b);
    }
    assert Evaluate("a=rw", FromNumber(292).perm).value == FromNumber(438).perm;
  }

  lemma AllReadWriteBit(b: Bit)
    ensures AccessLetter(b.access) in "rw" <==> b in FromNumber(438).perm
  {
    BitsOf(438, b);
  }

  /** u+rw,g=x on 0000 gives 0610. */
  lemma TwoParts()
    ensures Evaluate("u+rw,g=x", {}) == Some(FromNumber(392).perm)
  {
    TwoPartsText();
    var m := OnePart("u+rw", "u", '+', "rw", {});
    var r := OnePart("g=x", "g", '=', "x", m);
    SequenceText("u+rw", "g=x", {});
    forall b: Bit ensures b in r <==> b in FromNumber(392).perm {
      TwoPartsBit(b);
    }
    assert r == FromNumber(392).perm;
  }

  lemma OnePart(s: string, who: string, op: char, perms: string, m: Perm) returns (r: Perm)
    requires s == who + [op] + perms && (op == '+' || op == '-' || op == '=')
    requires forall k :: 0 <= k < |who| ==> Wordy(who[k])
    requires perms != "" && forall k :: 0 <= k < |perms| ==> OneOfRwx(perms[k])
    ensures Evaluate(s, m) == Some(r)
    ensures forall b: Bit :: b in r <==>
              Granted(op, ClassLetter(b.class_) in who || 'a' in who, AccessLetter(b.access) in perms, b in m)
  {
    ClauseText(who, op, perms, m);
    r := Evaluate(s, m).value;
  }

  lemma TwoPartsText()
    ensures "u" + "+" + "rw" == "u+rw" && "g" + "=" + "x" == "g=x" && "u+rw" + "," + "g=x" == "u+rw,g=x"
  {}

  lemma TwoPartsBit(b: Bit)
    ensures Granted('=', ClassLetter(b.class_) in "g" || 'a' in "g", AccessLetter(b.access) in "x",
                    Granted('+', ClassLetter(b.class_) in "u" || 'a' in "u", AccessLetter(b.access) in "rw", false))
       <==> b in FromNumber(392).perm
  {
    BitsOf(392, b);
  }

  lemma ValueSnoc(s: string, d: char)
    requires OctalDigits(s) && IsOctalDigit(d)
    ensures OctalDigits(s + [d]) && Value(s + [d]) == 8 * Value(s) + (d as int - '0' as int)
  {
    assert (s + [d])[..|s|] == s;
  }

  /** Three octal digits are read by place, with or without a zero before them. */
  lemma ThreeDigits(a: char, b: char, c: char)
    requires IsOctalDigit(a) && IsOctalDigit(b) && IsOctalDigit(c)
    ensures var n: nat := 64 * (a as int - '0' as int) + 8 * (b as int - '0' as int) + (c as int - '0' as int);
            ParseUint([a] + [b] + [c]) == Some(n) && ParseUint(['0'] + [a] + [b] + [c]) == Some(n)
  {
    ValueSnoc([], a);
    ValueSnoc([], '0');
    assert [] + [a] == [a] && [] + ['0'] == ['0'];
    ValueSnoc([a], b);
    ValueSnoc([a] + [b], c);
    ValueSnoc(['0'], a);
    ValueSnoc(['0'] + [a], b);
    ValueSnoc(['0'] + [a] + [b], c);
  }

  /** The integer 420 is written 644. */
  lemma IntegerInOctal()
    ensures FormatInt(420) == "644"
  {
    assert FormatNat(6) == "6";
    assert FormatNat(52) == "64";
  }
}
