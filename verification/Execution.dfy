/** What executing a task does, in terms of what the template engine and the modules answer. */
module Execution {
  import opened Prelude
  import opened Variables
  import opened Templates
  import opened Tasks
  import opened TemplateMeaning

  // ---------------------------------------------------------------- numbers as text

  function Digit(d: nat): char
    requires d < 10
  {
    ('0' as int + d) as char
  }

  /** A number above zero in decimal. */
  function Text(n: nat): string {
    if n < 10 then [Digit(n)] else Text(n / 10) + [Digit(n % 10)]
  }

  function Zeros(k: nat): string {
    seq(k, i => '0')
  }

  /** A 64-bit integer other than zero: perhaps a sign, perhaps leading zeros, and the number. */
  predicate IsNumber(s: string, sign: string, zeros: nat, n: nat) {
    && s == sign + (Zeros(zeros) + Text(n))
    && 0 < n
    && ((sign == "-" && n <= 0x8000_0000_0000_0000) || ((sign == "" || sign == "+") && n < 0x8000_0000_0000_0000))
  }

  ghost predicate NonZeroNumber(s: string) {
    exists sign, zeros, n :: IsNumber(s, sign, zeros, n)
  }

  lemma {:induction false} ZerosAreZero(k: nat)
    ensures Decimal(Zeros(k)) == 0
  {
    if k > 0 {
      assert Zeros(k)[..k - 1] == Zeros(k - 1);
      ZerosAreZero(k - 1);
    }
  }

  lemma {:induction false} DecimalOfText(k: nat, n: nat)
    requires n > 0
    ensures Digits(Zeros(k) + Text(n)) && Decimal(Zeros(k) + Text(n)) == n
  {
    var s := Zeros(k) + Text(n);
    if n < 10 {
      ZerosAreZero(k);
      assert s[..|s| - 1] == Zeros(k);
    } else {
      DecimalOfText(k, n / 10);
      assert s == (Zeros(k) + Text(n / 10)) + [Digit(n % 10)];
      assert s[..|s| - 1] == Zeros(k) + Text(n / 10);
    }
  }

  lemma {:induction false} ZeroIsZeros(s: string)
    requires (forall k :: 0 <= k < |s| ==> '0' <= s[k] <= '9') && Decimal(s) == 0
    ensures s == Zeros(|s|)
  {
    if s != "" {
      ZeroIsZeros(s[..|s| - 1]);
      assert s == s[..|s| - 1] + [s[|s| - 1]];
    }
  }

  lemma {:induction false} TextOfDecimal(s: string) returns (k: nat)
    requires (forall k :: 0 <= k < |s| ==> '0' <= s[k] <= '9') && Decimal(s) > 0
    ensures s == Zeros(k) + Text(Decimal(s))
  {
    var init, c := s[..|s| - 1], s[|s| - 1];
    assert s == init + [c];
    if Decimal(init) == 0 {
      ZeroIsZeros(init);
      k := |init|;
    } else {
      k := TextOfDecimal(init);
      assert Zeros(k) + Text(Decimal(s)) == (Zeros(k) + Text(Decimal(init))) + [c];
    }
  }

  lemma AtoiOf(sign: string, t: string)
    requires (sign == "" || sign == "+" || sign == "-") && Digits(t)
    ensures Atoi(sign + t) ==
            if sign == "-" then (if Decimal(t) <= 0x8000_0000_0000_0000 then Some(0 - Decimal(t) as int) else None)
            else if Decimal(t) < 0x8000_0000_0000_0000 then Some(Decimal(t)) else None
  {
    var s := sign + t;
    if sign == "" {
      assert s == t && '0' <= t[0] <= '9';
    } else {
      assert s[0] == sign[0] && s[1..] == t;
    }
  }

  /** Any text that is a number for `Atoi` is a sign and digits. */
  lemma AtoiParts(s: string) returns (sign: string, t: string)
    requires Atoi(s).Some?
    ensures s == sign + t && (sign == "" || sign == "+" || sign == "-") && Digits(t)
  {
    if s != "" && (s[0] == '-' || s[0] == '+') {
      sign, t := [s[0]], s[1..];
    } else {
      sign, t := "", s;
    }
  }

  lemma NumbersAreTrue(s: string)
    requires NonZeroNumber(s)
    ensures Atoi(s).Some? && Atoi(s).value != 0
  {
    var sign, zeros, n :| IsNumber(s, sign, zeros, n);
    var t := Zeros(zeros) + Text(n);
    DecimalOfText(zeros, n);
    AtoiOf(sign, t);
  }

  lemma TrueNumbers(s: string)
    requires Atoi(s).Some? && Atoi(s).value != 0
    ensures NonZeroNumber(s)
  {
    var sign, t := AtoiParts(s);
    AtoiOf(sign, t);
    var zeros := TextOfDecimal(t);
    assert IsNumber(s, sign, zeros, Decimal(t));
  }

  /** The texts that let a task run. */
  ghost predicate RunsOn(s: string) {
    s == "True" || s == "true" || NonZeroNumber(s)
  }

  lemma TruthExactly(s: string)
    ensures Truth(s) <==> RunsOn(s)
  {
    if NonZeroNumber(s) {
      NumbersAreTrue(s);
      assert s != "False" && s != "false" by {
        assert Atoi("False").None? by { assert !Digits("False") by { assert "False"[0] == 'F'; } }
        assert Atoi("false").None? by { assert !Digits("false") by { assert "false"[0] == 'f'; } }
      }
    }
    if Truth(s) && s != "True" && s != "true" {
      TrueNumbers(s);
    }
  }

  // ---------------------------------------------------------------- a module call

  /** The strings and the message of `t` render: the condition to `cond`, the message to `args`. */
  ghost predicate Ready(e: Engine, t: Task, env: Vars, cond: string, args: seq<Field>)
    requires t.action.Module?
  {
    && (exists name :: TextIs(e, t.name, env, name))
    && TextIs(e, t.when_, env, cond)
    && (exists register :: TextIs(e, t.register, env, register))
    && FieldsRendered(e, t.action.fields, args, env)
  }

  /** A registered name bound to the fields of a result; no name, no binding. */
  function Bound(env: Vars, name: string, changed: bool, skipped: bool, failed: bool, payload: string): Vars {
    if name == "" then env else env[name := Registered(changed, skipped, failed, payload, [])]
  }

  lemma ReadyRenders(e: Engine, t: Task, env: Vars, cond: string, args: seq<Field>)
    requires t.action.Module? && t.loop.NoLoop? && Ready(e, t, env, cond, args)
    ensures var r := Render(e, t, env).task;
            r.Some? && r.value.when_ == cond && r.value.action == Module(t.action.kind, args)
  {
    FieldsExactly(e, t.action.fields, args, env);
    assert RenderText(e, t.when_, env) == Some(cond);
  }

  /** A call that does not render fails, and does nothing. */
  lemma NotReadyFails(w: World, t: Task, env: Vars, log: Log, at: Place)
    requires t.action.Module? && t.loop.NoLoop? && forall cond, args :: !Ready(w.engine, t, env, cond, args)
    ensures Execute(w, t, env, log, at) == State(env, log, false)
  {
    var r := Render(w.engine, t, env).task;
    assert t.(loop := NoLoop) == t;
    if r.Some? {
      FieldsExactly(w.engine, t.action.fields, r.value.action.fields, env);
      assert TextIs(w.engine, t.name, env, r.value.name) && TextIs(w.engine, t.register, env, r.value.register);
      assert Ready(w.engine, t, env, r.value.when_, r.value.action.fields);
    }
  }

  /** A call without a condition, or with one whose text comes out true: the module is called with what was rendered. */
  lemma CallRuns(w: World, t: Task, env: Vars, log: Log, at: Place, cond: string, args: seq<Field>)
    requires t.action.Module? && t.loop.NoLoop? && Ready(w.engine, t, env, cond, args)
    requires cond != "" ==> var text := w.engine.text("{{ " + cond + " }}", env); text.Some? && RunsOn(text.value)
    ensures var a := Module(t.action.kind, args);
            var ev := Event(a, env, at);
            Execute(w, t, env, log, at) ==
            if !w.valid(a) then State(env, log, false)
            else
              match w.perform(log, ev)
              case None => State(env, log + [ev], false)
              case Some(d) => State(Bound(env, t.register, d.changed, d.skipped, d.failed, d.payload), log + [ev], true)
  {
    ReadyRenders(w.engine, t, env, cond, args);
    assert t.(loop := NoLoop) == t;
    if cond != "" { TruthExactly(w.engine.text("{{ " + cond + " }}", env).value); }
  }

  /** A condition whose text is none of those that run: nothing is called, and the task succeeds without flags. */
  lemma CallSkipped(w: World, t: Task, env: Vars, log: Log, at: Place, cond: string, args: seq<Field>)
    requires t.action.Module? && t.loop.NoLoop? && Ready(w.engine, t, env, cond, args) && cond != ""
    requires var text := w.engine.text("{{ " + cond + " }}", env); text.Some? && !RunsOn(text.value)
    ensures Execute(w, t, env, log, at) == State(Bound(env, t.register, false, false, false, ""), log, true)
  {
    ReadyRenders(w.engine, t, env, cond, args);
    assert t.(loop := NoLoop) == t;
    TruthExactly(w.engine.text("{{ " + cond + " }}", env).value);
  }

  /** A condition that cannot be evaluated: nothing is called, and the task fails. */
  lemma ConditionFails(w: World, t: Task, env: Vars, log: Log, at: Place, cond: string, args: seq<Field>)
    requires t.action.Module? && t.loop.NoLoop? && Ready(w.engine, t, env, cond, args) && cond != ""
    requires w.engine.text("{{ " + cond + " }}", env).None?
    ensures Execute(w, t, env, log, at) == State(env, log, false)
  {
    ReadyRenders(w.engine, t, env, cond, args);
    assert t.(loop := NoLoop) == t;
  }

  /** The texts that do not run, among them these. */
  lemma FalseTexts()
    ensures !RunsOn("False") && !RunsOn("false") && !RunsOn("0") && !RunsOn("") && !RunsOn("yes")
  {
    TruthExactly("False");
    TruthExactly("false");
    TruthExactly("0");
    assert "0"[..0] == "" && Decimal("0") == 0;
    TruthExactly("");
    TruthExactly("yes");
    assert "yes"[0] == 'y';
  }

  // ---------------------------------------------------------------- an import

  /** Where the file of an import is: in a role among its tasks, in a play beside the playbook. */
  function ImportedFrom(w: World, at: Place, file: string): string {
    if at.inRole then w.join(w.join(at.dir, "tasks"), file) else w.join(at.dir, file)
  }

  /**
   An import without controls reads its file from there, and fails if there is none; it then does what its
   tasks do.
  */
  lemma ImportReads(w: World, t: Task, env: Vars, log: Log, at: Place, file: string)
    requires t == Task("", "", NoLoop, t.action, "") && t.action.TaskFile? && w.depth > 0
    requires TextIs(w.engine, t.action.file, env, file) && file != ""
    ensures var tasks := w.files(ImportedFrom(w, at, file));
            Execute(w, t, env, log, at) ==
            if tasks.None? then State(env, log, false)
            else
              var d := RunFile(w, tasks.value, env, log, at, w.depth - 1);
              State(env, d.log, d.result.Some?)
  {
    assert TaskPath(w, at, file) == ImportedFrom(w, at, file);
    assert t.(loop := NoLoop) == t;
    var r := Render(w.engine, t, env).task;
    assert r.Some? && r.value.action == TaskFile(file) && r.value.when_ == "";
  }

  // ---------------------------------------------------------------- a loop

  /** One round of a loop over a module call, whatever its condition and register say. */
  lemma RoundCalls(w: World, t: Task, env: Vars, log: Log, at: Place, args: seq<Field>)
    requires t.action.Module? && (exists name :: TextIs(w.engine, t.name, env, name))
    requires FieldsRendered(w.engine, t.action.fields, args, env)
    ensures var a := Module(t.action.kind, args);
            var ev := Event(a, env, at);
            Process(w, Iteration(t), env, log, at) ==
            if !w.valid(a) then Ran(log, None) else Ran(log + [ev], w.perform(log, ev))
  {
    var once := Iteration(t);
    assert once.(loop := NoLoop) == once;
    FieldsExactly(w.engine, t.action.fields, args, env);
  }

  /** The calls of a loop that succeeds: one for each item, in order, each with its item bound. */
  ghost predicate Rounds(w: World, t: Task, items: seq<Value>, env: Vars, calls: Log, at: Place)
    requires t.action.Module?
  {
    && |calls| == |items|
    && forall i :: 0 <= i < |items| ==>
         && calls[i].Event? && calls[i].env == env["item" := items[i]] && calls[i].at == at
         && calls[i].action.Module? && calls[i].action.kind == t.action.kind
         && FieldsRendered(w.engine, t.action.fields, calls[i].action.fields, env["item" := items[i]])
  }

  lemma RoundSucceeds(w: World, t: Task, env: Vars, log: Log, at: Place) returns (ev: Event)
    requires t.action.Module? && Process(w, Iteration(t), env, log, at).result.Some?
    ensures ev.Event? && ev.env == env && ev.at == at && ev.action.Module? && ev.action.kind == t.action.kind
    ensures FieldsRendered(w.engine, t.action.fields, ev.action.fields, env)
    ensures Process(w, Iteration(t), env, log, at) == Ran(log + [ev], w.perform(log, ev))
  {
    var once := Iteration(t);
    assert once.(loop := NoLoop) == once;
    var r := Render(w.engine, once, env).task;
    FieldsExactly(w.engine, t.action.fields, r.value.action.fields, env);
    ev := Event(r.value.action, env, at);
  }

  /** The loop's log and results are those of `calls`, after what was there before. */
  ghost predicate Calls(w: World, t: Task, items: seq<Value>, rs: seq<Result>, env: Vars, log: Log, at: Place,
                        calls: Log)
    requires t.action.Module?
  {
    var (s, all) := RunLoop(w, t, items, rs, env, log, at);
    && Rounds(w, t, items, env, calls, at) && s.log == log + calls
    && Answered(w, log, calls, all, |rs|) && all[..|rs|] == rs
  }

  /**
   A loop over a module call, when it succeeds, calls it once for each item, in order, and collects
   what was answered.
   */
  lemma {:induction false} LoopCalls(w: World, t: Task, items: seq<Value>, rs: seq<Result>, env: Vars, log: Log,
                                     at: Place)
    returns (calls: Log)
    requires t.action.Module? && RunLoop(w, t, items, rs, env, log, at).0.ok
    ensures Calls(w, t, items, rs, env, log, at, calls)
    decreases |items|
  {
    if items == [] {
      calls := [];
    } else {
      var here := env["item" := items[0]];
      var ev := RoundSucceeds(w, t, here, log, at);
      var d := w.perform(log, ev).value;
      var rest := LoopCalls(w, t, items[1..], rs + [d], here, log + [ev], at);
      calls := [ev] + rest;
      CallsCons(w, t, items, rs, env, log, at, ev, d, rest);
    }
  }

  lemma CallsCons(w: World, t: Task, items: seq<Value>, rs: seq<Result>, env: Vars, log: Log, at: Place, ev: Event,
                  d: Result, rest: Log)
    requires t.action.Module? && items != [] && ev.Event? && ev.action.Module? && ev.action.kind == t.action.kind
    requires ev.env == env["item" := items[0]] && ev.at == at && w.perform(log, ev) == Some(d)
    requires FieldsRendered(w.engine, t.action.fields, ev.action.fields, env["item" := items[0]])
    requires RunLoop(w, t, items, rs, env, log, at) == RunLoop(w, t, items[1..], rs + [d], ev.env, log + [ev], at)
    requires Calls(w, t, items[1..], rs + [d], ev.env, log + [ev], at, rest)
    ensures Calls(w, t, items, rs, env, log, at, [ev] + rest)
  {
    RoundsCons(w, t, items, env, at, ev, rest);
    var all := RunLoop(w, t, items, rs, env, log, at).1;
    PrefixSnoc(all, rs, d);
    AnsweredCons(w, log, ev, rest, all, |rs|);
    assert log + [ev] + rest == log + ([ev] + rest);
  }

  lemma PrefixSnoc(all: seq<Result>, rs: seq<Result>, d: Result)
    requires |all| > |rs| && all[..|rs| + 1] == rs + [d]
    ensures all[..|rs|] == rs && all[|rs|] == d
  {
    assert all[|rs|] == all[..|rs| + 1][|rs|] && all[..|rs|] == all[..|rs| + 1][..|rs|];
  }

  lemma RoundsCons(w: World, t: Task, items: seq<Value>, env: Vars, at: Place, ev: Event, rest: Log)
    requires t.action.Module? && items != [] && ev.Event? && ev.action.Module? && ev.action.kind == t.action.kind
    requires ev.env == env["item" := items[0]] && ev.at == at
    requires FieldsRendered(w.engine, t.action.fields, ev.action.fields, env["item" := items[0]])
    requires Rounds(w, t, items[1..], ev.env, rest, at)
    ensures Rounds(w, t, items, env, [ev] + rest, at)
  {
    var calls := [ev] + rest;
    forall i | 0 <= i < |items|
      ensures calls[i].Event? && calls[i].env == env["item" := items[i]] && calls[i].at == at
      ensures calls[i].action.Module? && calls[i].action.kind == t.action.kind
      ensures FieldsRendered(w.engine, t.action.fields, calls[i].action.fields, env["item" := items[i]])
    {
      if i > 0 {
        assert calls[i] == rest[i - 1] && items[i] == items[1..][i - 1];
        assert env["item" := items[0]]["item" := items[i]] == env["item" := items[i]];
      }
    }
  }

  /** Each call was answered with the result in its place after the first `n`. */
  ghost predicate Answered(w: World, log: Log, calls: Log, all: seq<Result>, n: nat) {
    |all| == n + |calls| && forall i :: 0 <= i < |calls| ==> w.perform(log + calls[..i], calls[i]) == Some(all[n + i])
  }

  lemma AnsweredCons(w: World, log: Log, ev: Event, rest: Log, all: seq<Result>, n: nat)
    requires Answered(w, log + [ev], rest, all, n + 1) && w.perform(log, ev) == Some(all[n])
    ensures Answered(w, log, [ev] + rest, all, n)
  {
    var calls := [ev] + rest;
    forall i | 0 <= i < |calls| ensures w.perform(log + calls[..i], calls[i]) == Some(all[n + i]) {
      if i == 0 {
        assert log + calls[..0] == log;
      } else {
        assert log + calls[..i] == log + [ev] + rest[..i - 1] && calls[i] == rest[i - 1];
      }
    }
  }

  /** What a loop registers, field by field: results in order, and the flags that some round raised. */
  lemma LoopValueFields(rs: seq<Result>)
    ensures var v := LoopValue(rs);
            && v.Registered? && v.payload == "" && |v.results| == |rs|
            && (forall i :: 0 <= i < |rs| ==>
                  v.results[i] == Registered(rs[i].changed, rs[i].skipped, rs[i].failed, rs[i].payload, []))
            && (v.changed <==> exists i :: 0 <= i < |rs| && rs[i].changed)
            && (v.skipped <==> exists i :: 0 <= i < |rs| && rs[i].skipped)
            && (v.failed <==> exists i :: 0 <= i < |rs| && rs[i].failed)
  {}

  /**
   A task that loops over a list given as such and succeeds: one call for each item, in order, with
   `item` bound; afterwards `item` is the last of them, and the register has the results in order
   and the flags that some of them raised.
   */
  lemma LiteralLoop(w: World, t: Task, items: seq<Value>, env: Vars, log: Log, at: Place)
    returns (calls: Log, all: seq<Result>)
    requires t.action.Module? && t.loop == Literal(items) && Execute(w, t, env, log, at).ok
    ensures var s := Execute(w, t, env, log, at);
            var v := Registered(exists i :: 0 <= i < |all| && all[i].changed,
                                exists i :: 0 <= i < |all| && all[i].skipped,
                                exists i :: 0 <= i < |all| && all[i].failed, "",
                                seq(|all|, i requires 0 <= i < |all| =>
                                  Registered(all[i].changed, all[i].skipped, all[i].failed, all[i].payload, [])));
            var last := if items == [] then env else env["item" := items[|items| - 1]];
            && Rounds(w, t, items, env, calls, at) && Answered(w, log, calls, all, 0) && s.log == log + calls
            && s.env == (if t.register == "" then last else last[t.register := v])
  {
    calls := LoopCalls(w, t, items, [], env, log, at);
    all := RunLoop(w, t, items, [], env, log, at).1;
    LastItem(w, t, items, [], env, log, at);
    LoopValueFields(all);
    assert LoopValue(all).results == seq(|all|, i requires 0 <= i < |all| =>
                                       Registered(all[i].changed, all[i].skipped, all[i].failed, all[i].payload, []));
  }

  lemma {:induction false} LastItem(w: World, t: Task, items: seq<Value>, rs: seq<Result>, env: Vars, log: Log,
                                    at: Place)
    requires RunLoop(w, t, items, rs, env, log, at).0.ok
    ensures RunLoop(w, t, items, rs, env, log, at).0.env ==
            if items == [] then env else env["item" := items[|items| - 1]]
    decreases |items|
  {
    if items != [] {
      var here := env["item" := items[0]];
      var d := Process(w, Iteration(t), here, log, at);
      LastItem(w, t, items[1..], rs + [d.result.value], here, d.log, at);
      if |items| > 1 {
        assert here["item" := items[|items| - 1]] == env["item" := items[|items| - 1]];
      }
    }
  }

  // ---------------------------------------------------------------- which plays, and what they start with

  /** The plays of the node: those that name it or one of its groups. */
  function ForNode(st: Setting, plays: seq<Play>): seq<Play> {
    if plays == [] then []
    else
      (if plays[0].hosts == st.node || plays[0].hosts in st.groups then [plays[0]] else []) + ForNode(st, plays[1..])
  }

  /** Plays one after the other, whatever they name, until one fails. */
  function RunEach(st: Setting, roles: map<string, Role>, plays: seq<Play>, log: Log): (Log, bool)
    decreases |plays|
  {
    if plays == [] then (log, true)
    else
      var s := RunPlay(st, roles, plays[0], log);
      if !s.ok then (s.log, false) else RunEach(st, roles, plays[1..], s.log)
  }

  /** A playbook runs exactly the plays of the node, in order. */
  lemma {:induction false} OnlyPlaysForNode(st: Setting, roles: map<string, Role>, plays: seq<Play>, log: Log)
    ensures RunPlaybook(st, roles, plays, log) == RunEach(st, roles, ForNode(st, plays), log)
    decreases |plays|
  {
    if plays != [] {
      if plays[0].hosts == st.node || plays[0].hosts in st.groups {
        var rest := ForNode(st, plays[1..]);
        assert ([plays[0]] + rest)[0] == plays[0] && ([plays[0]] + rest)[1..] == rest;
        var s := RunPlay(st, roles, plays[0], log);
        OnlyPlaysForNode(st, roles, plays[1..], s.log);
      } else {
        assert [] + ForNode(st, plays[1..]) == ForNode(st, plays[1..]);
        OnlyPlaysForNode(st, roles, plays[1..], log);
      }
    }
  }

  /** What file `j` of a play gives. */
  function FileVars(st: Setting, files: seq<string>, j: nat): Option<Vars>
    requires j < |files|
  {
    st.loadVars(st.world.join(st.playbookDir, files[j]))
  }

  /** Variable files load if and only if each of them does. */
  lemma {:induction false} VarsFilesLoad(st: Setting, files: seq<string>, env: Vars)
    ensures LoadVars(st, files, env).Some? <==> forall j :: 0 <= j < |files| ==> FileVars(st, files, j).Some?
    decreases |files|
  {
    if files != [] {
      var first := FileVars(st, files, 0);
      if first.Some? {
        VarsFilesLoad(st, files[1..], env + first.value);
        if forall j :: 0 <= j < |files| ==> FileVars(st, files, j).Some? {
          forall j | 0 <= j < |files| - 1 ensures FileVars(st, files[1..], j).Some? {
            assert FileVars(st, files[1..], j) == FileVars(st, files, j + 1);
          }
        }
        if forall j :: 0 <= j < |files| - 1 ==> FileVars(st, files[1..], j).Some? {
          forall j | 0 <= j < |files| ensures FileVars(st, files, j).Some? {
            if j > 0 { assert FileVars(st, files, j) == FileVars(st, files[1..], j - 1); }
          }
        }
      }
    }
  }

  /** A name then has what the last file defining it gives, else what it had. */
  lemma {:induction false} VarsFilesLookup(st: Setting, files: seq<string>, env: Vars, k: string) returns (i: int)
    requires forall j :: 0 <= j < |files| ==> FileVars(st, files, j).Some?
    ensures LoadVars(st, files, env).Some? && -1 <= i < |files|
    ensures forall j :: i < j < |files| ==> k !in FileVars(st, files, j).value
    ensures var r := LoadVars(st, files, env).value;
            if i >= 0 then k in FileVars(st, files, i).value && k in r && r[k] == FileVars(st, files, i).value[k]
            else (k in r <==> k in env) && (k in env ==> r[k] == env[k])
    decreases |files|
  {
    i := -1;
    VarsFilesLoad(st, files, env);
    if files != [] {
      var first := FileVars(st, files, 0).value;
      forall j | 0 <= j < |files| - 1 ensures FileVars(st, files[1..], j) == FileVars(st, files, j + 1) {}
      var j := VarsFilesLookup(st, files[1..], env + first, k);
      i := if j >= 0 then j + 1 else if k in first then 0 else -1;
      forall m | i < m < |files| ensures k !in FileVars(st, files, m).value {
        if m > 0 { assert FileVars(st, files, m) == FileVars(st, files[1..], m - 1); }
      }
    }
  }

  /**
   A play starts if and only if every one of its files loads; each name then has what the last file
   defining it gives, else what the play gives, else what the inventory does.
   */
  lemma PlayStart(st: Setting, roles: map<string, Role>, play: Play, log: Log, k: string) returns (i: int)
    ensures (exists j :: 0 <= j < |play.varsFiles| && FileVars(st, play.varsFiles, j).None?) ==>
              RunPlay(st, roles, play, log) == State(map[], log, false)
    ensures (forall j :: 0 <= j < |play.varsFiles| ==> FileVars(st, play.varsFiles, j).Some?) ==>
              var start := LoadVars(st, play.varsFiles, st.inventory + play.vars);
              && start.Some?
              && -1 <= i < |play.varsFiles|
              && (forall j :: i < j < |play.varsFiles| ==> k !in FileVars(st, play.varsFiles, j).value)
              && (if i >= 0
                  then k in FileVars(st, play.varsFiles, i).value && k in start.value
                       && start.value[k] == FileVars(st, play.varsFiles, i).value[k]
                  else if k in play.vars then k in start.value && start.value[k] == play.vars[k]
                  else if k in st.inventory then k in start.value && start.value[k] == st.inventory[k]
                  else k !in start.value)
  {
    i := -1;
    VarsFilesLoad(st, play.varsFiles, st.inventory + play.vars);
    if forall j :: 0 <= j < |play.varsFiles| ==> FileVars(st, play.varsFiles, j).Some? {
      i := VarsFilesLookup(st, play.varsFiles, st.inventory + play.vars, k);
    }
  }
}
