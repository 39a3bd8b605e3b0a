/** Importing a file of tasks against writing them in its place. */
module Inlining {
  import opened Prelude
  import opened Variables
  import opened Templates
  import opened Tasks
  import opened Nesting
  import opened TaskProperties

  /** A task that makes no use of conditions, loops and registered results. */
  predicate Unconditional(t: Task) {
    t.when_ == "" && t.loop.NoLoop? && t.register == ""
  }

  function Strip(t: Task): Task {
    Task(t.name, "", NoLoop, t.action, "")
  }

  function StripAll(ts: seq<Task>): seq<Task> {
    seq(|ts|, i requires 0 <= i < |ts| => Strip(ts[i]))
  }

  /** The controls of the task, which an import renders and then ignores, do render. */
  predicate ControlsRender(e: Engine, t: Task, env: Vars) {
    && RenderText(e, t.when_, env).Some?
    && RenderText(e, t.register, env).Some?
    && (t.loop.Template? ==> RenderToSlice(e, t.loop.template, env).Some?)
  }

  /** How many tasks come before the first whose controls do not render. */
  function Controlled(e: Engine, ts: seq<Task>, env: Vars): (k: nat)
    ensures k <= |ts| && (forall i :: 0 <= i < k ==> ControlsRender(e, ts[i], env))
    ensures k < |ts| ==> !ControlsRender(e, ts[k], env)
  {
    if ts == [] || !ControlsRender(e, ts[0], env) then 0 else 1 + Controlled(e, ts[1..], env)
  }

  // ---------------------------------------------------------------- import is inlining

  /**
   A file's tasks do what they would do, stripped of their controls, in its place, up to controls that do
   not render.
  */
  lemma {:induction false} FileIsInlinedStripped(w: World, ts: seq<Task>, env: Vars, log: Log, at: Place)
    ensures var d, k := RunFile(w, ts, env, log, at, w.depth), Controlled(w.engine, ts, env);
            var s := ExecuteAll(w, StripAll(ts[..k]), env, log, at);
            s.env == env && s.log == d.log && (d.result.Some? <==> s.ok && k == |ts|)
    decreases |ts|
  {
    var k := Controlled(w.engine, ts, env);
    if k > 0 {
      var run := ts[..k];
      assert StripAll(run)[0] == Strip(ts[0]) && StripAll(run)[1..] == StripAll(ts[1..][..k - 1]);
      var t := Render(w.engine, ts[0], env).task;
      if t.Some? && Valid(w, t.value.action) {
        var d := Act(w, t.value.action, env, log, at, w.depth);
        assert Process(w, Strip(ts[0]), env, log, at) == d;
        if d.result.Some? {
          FileIsInlinedStripped(w, ts[1..], env, d.log, at);
        }
      }
    }
  }

  /** The import of a file: it renders, in `env`, to the reference of a file holding `ts`. */
  predicate Imports(w: World, t: Task, env: Vars, at: Place, ts: seq<Task>) {
    && Unconditional(t) && t.action.TaskFile?
    && RenderText(w.engine, t.name, env).Some?
    && var f := RenderText(w.engine, t.action.file, env);
    && f.Some? && f.value != ""
    && w.files(TaskPath(w, at, f.value)) == Some(ts)
  }

  /** An import opens its file, if another one can be opened. */
  lemma ImportOpens(w: World, t: Task, ts: seq<Task>, env: Vars, log: Log, at: Place)
    requires Imports(w, t, env, at, ts)
    ensures var d := if w.depth == 0 then Ran(log + [Overflow], None) else RunFile(w, ts, env, log, at, w.depth - 1);
            Execute(w, t, env, log, at) == State(env, d.log, d.result.Some?)
  {
    assert t.(loop := NoLoop) == t;
    var r := Render(w.engine, t, env).task;
    assert r.Some? && When(w.engine, r.value.when_, env) == Some(true) && Valid(w, r.value.action);
  }

  lemma ImportAlone(w: World, t: Task, ts: seq<Task>, env: Vars, log: Log, at: Place)
    requires Imports(w, t, env, at, ts) && Overflow !in Execute(w, t, env, log, at).log
    ensures var k := Controlled(w.engine, ts, env);
            var s := ExecuteAll(w, StripAll(ts[..k]), env, log, at);
            Execute(w, t, env, log, at) == State(s.env, s.log, s.ok && k == |ts|)
  {
    ImportOpens(w, t, ts, env, log, at);
    assert (log + [Overflow])[|log|] == Overflow;
    if w.depth > 0 {
      OneLessIsSame(w, ts, env, log, at);
      FileIsInlinedStripped(w, ts, env, log, at);
    }
  }

  lemma OneLessIsSame(w: World, ts: seq<Task>, env: Vars, log: Log, at: Place)
    requires w.depth > 0 && Overflow !in RunFile(w, ts, env, log, at, w.depth - 1).log
    ensures RunFile(w, ts, env, log, at, w.depth) == RunFile(w, ts, env, log, at, w.depth - 1)
  {
    assert Deeper(w, w.depth) == w;
    RunFileDeeper(w, ts, env, log, at, w.depth - 1, w.depth, w.depth);
  }

  /**
   Import is inlining: among any other tasks, importing a file has the same effects, the same final
   environment and the same success as its tasks in that place, stripped of conditions, loops and
   registers. When such a control does not even render, the run fails there.
   */
  lemma ImportIsInlining(w: World, before: seq<Task>, t: Task, ts: seq<Task>, after: seq<Task>, env: Vars, log: Log,
                         at: Place)
    requires var s := ExecuteAll(w, before, env, log, at); s.ok ==> Imports(w, t, s.env, at, ts)
    requires Overflow !in ExecuteAll(w, before + [t], env, log, at).log
    ensures var s := ExecuteAll(w, before, env, log, at);
            var k := Controlled(w.engine, ts, s.env);
            if k == |ts| then
              ExecuteAll(w, before + [t] + after, env, log, at)
                  == ExecuteAll(w, before + StripAll(ts) + after, env, log, at)
            else
              var failed := ExecuteAll(w, before + StripAll(ts[..k]), env, log, at);
              ExecuteAll(w, before + [t] + after, env, log, at) == State(failed.env, failed.log, false)
    ensures (forall k :: 0 <= k < |ts| ==> Unconditional(ts[k])) ==>
              StripAll(ts) == ts && forall env :: Controlled(w.engine, ts, env) == |ts|
  {
    var s := ExecuteAll(w, before, env, log, at);
    var k := Controlled(w.engine, ts, s.env);
    ExecuteAllAppend(w, before + [t], after, env, log, at);
    ExecuteAllAppend(w, before + StripAll(ts), after, env, log, at);
    ExecuteAllAppend(w, before, [t], env, log, at);
    ExecuteAllAppend(w, before, StripAll(ts), env, log, at);
    ExecuteAllAppend(w, before, StripAll(ts[..k]), env, log, at);
    assert k == |ts| ==> ts[..k] == ts;
    if s.ok {
      RunsOne(w, t, s.env, s.log, at);
      ImportAlone(w, t, ts, s.env, s.log, at);
    }
  }

  lemma RunsOne(w: World, t: Task, env: Vars, log: Log, at: Place)
    ensures ExecuteAll(w, [t], env, log, at) == Execute(w, t, env, log, at)
  {
    var s := Execute(w, t, env, log, at);
    assert ExecuteAll(w, [t][1..], s.env, s.log, at) == State(s.env, s.log, true);
  }

  /** What the tasks do in place, their import does with one more file open. */
  lemma ImportTakesOneMore(w: World, t: Task, ts: seq<Task>, env: Vars, log: Log, at: Place)
    requires Imports(w, t, env, at, ts) && Controlled(w.engine, ts, env) == |ts|
    requires Overflow !in ExecuteAll(w, StripAll(ts), env, log, at).log
    ensures Execute(Deeper(w, w.depth + 1), t, env, log, at) == ExecuteAll(w, StripAll(ts), env, log, at)
  {
    var v := Deeper(w, w.depth + 1);
    assert ts[..|ts|] == ts;
    FileIsInlinedStripped(w, ts, env, log, at);
    RunFileDeeper(w, ts, env, log, at, w.depth, w.depth + 1, w.depth);
    ImportOpens(v, t, ts, env, log, at);
  }

  // ---------------------------------------------------------------- just when a task may be imported

  /** What a file of the one task `t` does where it is imported. */
  function Imported(w: World, t: Task, env: Vars, log: Log, at: Place): State {
    var d := RunFile(w, [t], env, log, at, w.depth);
    State(env, d.log, d.result.Some?)
  }

  predicate Agrees(w: World, t: Task, env: Vars, log: Log, at: Place) {
    Execute(w, t, env, log, at) == Imported(w, t, env, log, at)
  }

  /** Registering `v` changes nothing. */
  predicate Registered(t: Task, env: Vars, v: Value) {
    t.register == "" || (t.register in env && env[t.register] == v)
  }

  /**
   A module call without a loop: it does not render, is refused anyway, or its condition holds and
   its result, if any, is not news.
   */
  predicate PlainAgrees(w: World, t: Task, env: Vars, log: Log, at: Place) {
    var r := Render(w.engine, t, env).task;
    || r.None?
    || (var run := When(w.engine, r.value.when_, env);
        if !w.valid(r.value.action) then run != Some(false)
        else
          && run == Some(true)
          && var d := w.perform(log, Event(r.value.action, env, at));
             d.Some? ==> Registered(t, env, ToValue(d.value)))
  }

  /**
   A module call with a loop: either there is no list and the import fails too; or `item` is already
   bound to the first item and the one call fails, or is the only one and its result is not news.
   */
  predicate LoopAgrees(w: World, t: Task, env: Vars, log: Log, at: Place) {
    var r, one := Render(w.engine, t, env).task, Render(w.engine, Iteration(t), env).task;
    match LoopItems(w.engine, t.loop, env)
    case None => r.None? || !w.valid(r.value.action)
    case Some(items) =>
      && items != [] && "item" in env && env["item"] == items[0]
      && (|| one.None?
          || !w.valid(one.value.action)
          || (&& r.Some?
              && var d := w.perform(log, Event(one.value.action, env, at));
                 d.Some? ==> |items| == 1 && Registered(t, env, LoopValue([d.value]))))
  }

  lemma ImportedCall(w: World, t: Task, env: Vars, log: Log, at: Place)
    requires t.action.Module?
    ensures var r := Render(w.engine, t, env).task;
            Imported(w, t, env, log, at) ==
            if r.None? || !w.valid(r.value.action) then State(env, log, false)
            else
              var ev := Event(r.value.action, env, at);
              State(env, log + [ev], w.perform(log, ev).Some?)
  {
    var r := Render(w.engine, t, env).task;
    if r.Some? && w.valid(r.value.action) {
      var ev := Event(r.value.action, env, at);
      assert Act(w, r.value.action, env, log, at, w.depth) == Ran(log + [ev], w.perform(log, ev));
      assert [t][0] == t && [t][1..] == [];
      assert RunFile(w, [], env, log + [ev], at, w.depth) == Ran(log + [ev], Some(NO_RESULT));
    }
  }

  /** The iteration of a module call, without a condition to stop it. */
  lemma IterationCall(w: World, t: Task, env: Vars, log: Log, at: Place)
    requires t.action.Module?
    ensures var one := Render(w.engine, Iteration(t), env).task;
            Process(w, Iteration(t), env, log, at) ==
            if one.None? || !w.valid(one.value.action) then Ran(log, None)
            else
              var ev := Event(one.value.action, env, at);
              Ran(log + [ev], w.perform(log, ev))
  {
    assert Iteration(t).(loop := NoLoop) == Iteration(t);
  }

  lemma PlainAgreement(w: World, t: Task, env: Vars, log: Log, at: Place)
    requires t.action.Module? && t.loop.NoLoop?
    ensures Agrees(w, t, env, log, at) <==> PlainAgrees(w, t, env, log, at)
  {
    ImportedCall(w, t, env, log, at);
    assert t.(loop := NoLoop) == t;
    var r := Render(w.engine, t, env).task;
    if r.Some? && w.valid(r.value.action) && When(w.engine, r.value.when_, env) == Some(true) {
      var d := w.perform(log, Event(r.value.action, env, at));
      if d.Some? { BindingIsNoNews(t, env, ToValue(d.value)); }
    }
  }

  lemma BindingIsNoNews(t: Task, env: Vars, v: Value)
    ensures t.register == "" || (env[t.register := v] == env <==> Registered(t, env, v))
  {
    if t.register != "" && env[t.register := v] == env {
      assert env[t.register := v][t.register] == v;
    }
  }

  // ---------------------------------------------------------------- loops

  /**
   A module call repeated for two items or more, if the first call succeeds, leaves another binding or a
   longer log.
  */
  lemma SecondItemShows(w: World, t: Task, items: seq<Value>, env: Vars, log: Log, at: Place)
    requires t.action.Module? && |items| >= 2 && "item" in env && env["item"] == items[0]
    requires var one := Render(w.engine, Iteration(t), env).task;
             && one.Some? && w.valid(one.value.action)
             && w.perform(log, Event(one.value.action, env, at)).Some?
    ensures var s := RunLoop(w, t, items, [], env, log, at).0;
            |s.log| >= |log| + 2 || (!s.ok && "item" in s.env && s.env["item"] != items[0])
  {
    assert env["item" := items[0]] == env;
    IterationCall(w, t, env, log, at);
    var d := Process(w, Iteration(t), env, log, at);
    var here := env["item" := items[1]];
    var rest := items[1..];
    IterationCall(w, t, here, d.log, at);
    var e := Process(w, Iteration(t), here, d.log, at);
    assert RunLoop(w, t, items, [], env, log, at) == RunLoop(w, t, rest, [] + [d.result.value], env, d.log, at);
    if e.result.Some? {
      RunLoopGrows(w, t, rest[1..], [] + [d.result.value] + [e.result.value], here, e.log, at);
    } else if items[1] == items[0] {
      assert here == env;
    }
  }

  /** The first item of a loop that calls a module. */
  lemma FirstItem(w: World, t: Task, items: seq<Value>, env: Vars, log: Log, at: Place)
    requires t.action.Module? && items != []
    ensures var here := env["item" := items[0]];
            var one := Render(w.engine, Iteration(t), here).task;
            RunLoop(w, t, items, [], env, log, at) ==
            if one.None? || !w.valid(one.value.action) then (State(here, log, false), [])
            else
              var ev := Event(one.value.action, here, at);
              var d := w.perform(log, ev);
              if d.None? then (State(here, log + [ev], false), [])
              else RunLoop(w, t, items[1..], [d.value], here, log + [ev], at)
  {
    var here := env["item" := items[0]];
    IterationCall(w, t, here, log, at);
    var d := Process(w, Iteration(t), here, log, at);
    if d.result.Some? {
      assert [] + [d.result.value] == [d.result.value];
    }
  }

  lemma LoopAgreement(w: World, t: Task, env: Vars, log: Log, at: Place)
    requires t.action.Module? && !t.loop.NoLoop?
    ensures Agrees(w, t, env, log, at) <==> LoopAgrees(w, t, env, log, at)
  {
    ImportedCall(w, t, env, log, at);
    match LoopItems(w.engine, t.loop, env) {
      case None =>
      case Some(items) =>
        if items == [] {
          EmptyLoopDiffers(w, t, env, log, at);
        } else if "item" in env && env["item"] == items[0] {
          assert env["item" := items[0]] == env;
          BoundLoopAgreement(w, t, items, env, log, at);
        } else {
          UnboundLoopDiffers(w, t, items, env, log, at);
        }
    }
  }

  lemma EmptyLoopDiffers(w: World, t: Task, env: Vars, log: Log, at: Place)
    requires t.action.Module? && !t.loop.NoLoop? && LoopItems(w.engine, t.loop, env) == Some([])
    ensures !Agrees(w, t, env, log, at)
  {
    ImportedCall(w, t, env, log, at);
    assert Execute(w, t, env, log, at).log == log && Execute(w, t, env, log, at).ok;
  }

  /** The iterations of a loop call the module with `item` bound, an import without. */
  lemma UnboundLoopDiffers(w: World, t: Task, items: seq<Value>, env: Vars, log: Log, at: Place)
    requires t.action.Module? && !t.loop.NoLoop? && LoopItems(w.engine, t.loop, env) == Some(items) && items != []
    requires !("item" in env && env["item"] == items[0])
    ensures !Agrees(w, t, env, log, at)
  {
    ImportedCall(w, t, env, log, at);
    FirstItem(w, t, items, env, log, at);
    var here := env["item" := items[0]];
    assert here["item"] == items[0] && here != env;
    var one := Render(w.engine, Iteration(t), here).task;
    if one.Some? && w.valid(one.value.action) {
      var ev := Event(one.value.action, here, at);
      var d := w.perform(log, ev);
      if d.Some? {
        RunLoopGrows(w, t, items[1..], [d.value], here, log + [ev], at);
      }
      var s := RunLoop(w, t, items, [], env, log, at).0;
      assert (log + [ev])[|log|] == ev && s.log[|log|] == ev;
    }
  }

  lemma BoundLoopAgreement(w: World, t: Task, items: seq<Value>, env: Vars, log: Log, at: Place)
    requires t.action.Module? && !t.loop.NoLoop? && LoopItems(w.engine, t.loop, env) == Some(items)
    requires items != [] && "item" in env && env["item"] == items[0]
    ensures Agrees(w, t, env, log, at) <==> LoopAgrees(w, t, env, log, at)
  {
    assert env["item" := items[0]] == env;
    ImportedCall(w, t, env, log, at);
    FirstItem(w, t, items, env, log, at);
    var one := Render(w.engine, Iteration(t), env).task;
    if one.Some? && w.valid(one.value.action) && w.perform(log, Event(one.value.action, env, at)).Some? {
      var ev := Event(one.value.action, env, at);
      var d := w.perform(log, ev).value;
      if |items| == 1 {
        assert RunLoop(w, t, items[1..], [d], env, log + [ev], at) == (State(env, log + [ev], true), [d]);
        BindingIsNoNews(t, env, LoopValue([d]));
      } else {
        SecondItemShows(w, t, items, env, log, at);
      }
    }
  }

  /**
   A module call does the same where it stands and in a file imported there, exactly under the
   conditions of `PlainAgrees` and `LoopAgrees`.
   */
  lemma ImportAgreesExactly(w: World, t: Task, env: Vars, log: Log, at: Place)
    requires t.action.Module?
    ensures Agrees(w, t, env, log, at) <==>
            if t.loop.NoLoop? then PlainAgrees(w, t, env, log, at) else LoopAgrees(w, t, env, log, at)
  {
    if t.loop.NoLoop? {
      PlainAgreement(w, t, env, log, at);
    } else {
      LoopAgreement(w, t, env, log, at);
    }
  }

  // ---------------------------------------------------------------- in every world

  /** An engine for which all text is plain, except that `s` comes out as `r`. */
  function Literally(s: string, r: string): Engine {
    Engine((t: string, env: Vars) => Some(if t == s then r else t), (t: string, env: Vars) => Plain)
  }

  lemma {:induction false} LiterallyRendersStrings(s: string, r: string, ss: seq<string>, env: Vars)
    ensures RenderStrings(Literally(s, r), ss, env).Some?
  {
    if ss != [] {
      LiterallyRendersStrings(s, r, ss[..|ss| - 1], env);
    }
  }

  lemma {:induction false} LiterallyRenders(s: string, r: string, fields: seq<Field>, env: Vars)
    ensures RenderFields(Literally(s, r), fields, env).1
  {
    if fields != [] {
      match fields[0] {
        case Str(_) =>
        case Strs(ss) => LiterallyRendersStrings(s, r, ss, env);
        case Rec(fs) => LiterallyRenders(s, r, fs, env);
      }
      LiterallyRenders(s, r, fields[1..], env);
    }
  }

  /** With a plain engine, where every call is valid and succeeds, an imported call is made. */
  lemma PlainWorldCalls(s: string, r: string, t: Task, env: Vars)
    requires t.action.Module?
    ensures var whole := Render(Literally(s, r), t, env).task;
            whole.Some? && whole.value.action.Module? && (t.when_ != s ==> whole.value.when_ == t.when_)
  {
    LiterallyRenders(s, r, t.action.fields, env);
  }

  function PlainWorld(e: Engine): World {
    World(e, (a: Action) => true, (l: Log, ev: Event) => Some(NO_RESULT), (a: string, b: string) => "",
          (p: string) => None, 0)
  }

  lemma ControlsShow(t: Task) returns (w: World)
    requires t.action.Module? && !Unconditional(t)
    ensures !Agrees(w, t, map[], [], Place("", false))
  {
    var shown := "{{ " + t.when_ + " }}";
    var s, r := if t.when_ == "" then "" else shown, if t.when_ == "" then "" else "false";
    var e := Literally(s, r);
    w := PlainWorld(e);
    PlainWorldCalls(s, r, t, map[]);
    ImportAgreesExactly(w, t, map[], [], Place("", false));
    if t.loop.NoLoop? && t.when_ != "" {
      assert |shown| > |t.when_|;
      assert When(e, t.when_, map[]) == Some(false);
    }
  }

  /**
   Import and execution in place agree on a module call in every world exactly when it uses no condition,
   loop or register.
  */
  lemma AlwaysAgreesIffUnconditional(t: Task)
    requires t.action.Module?
    ensures Unconditional(t) <==>
            forall w: World, env: Vars, log: Log, at: Place :: Agrees(w, t, env, log, at)
  {
    if Unconditional(t) {
      forall w: World, env: Vars, log: Log, at: Place ensures Agrees(w, t, env, log, at) {
        ImportAgreesExactly(w, t, env, log, at);
      }
    } else {
      var w := ControlsShow(t);
    }
  }

  // ---------------------------------------------------------------- a whole file in every world

  /** The tasks in place do what a file of them does where it is imported. */
  predicate FileAgrees(w: World, ts: seq<Task>, env: Vars, log: Log, at: Place) {
    var d := RunFile(w, ts, env, log, at, w.depth);
    ExecuteAll(w, ts, env, log, at) == State(env, d.log, d.result.Some?)
  }

  lemma {:induction false} EnvGrows(w: World, ts: seq<Task>, env: Vars, log: Log, at: Place)
    ensures env.Keys <= ExecuteAll(w, ts, env, log, at).env.Keys
    decreases |ts|
  {
    if ts != [] {
      if !ts[0].loop.NoLoop? && LoopItems(w.engine, ts[0].loop, env).Some? {
        LoopEnvGrows(w, ts[0], LoopItems(w.engine, ts[0].loop, env).value, [], env, log, at);
      }
      var s := Execute(w, ts[0], env, log, at);
      EnvGrows(w, ts[1..], s.env, s.log, at);
    }
  }

  lemma {:induction false} LoopEnvGrows(w: World, t: Task, items: seq<Value>, rs: seq<Result>, env: Vars, log: Log,
                                        at: Place)
    ensures env.Keys <= RunLoop(w, t, items, rs, env, log, at).0.env.Keys
    ensures items != [] ==> "item" in RunLoop(w, t, items, rs, env, log, at).0.env
    decreases |items|
  {
    if items != [] {
      var here := env["item" := items[0]];
      var done := Process(w, Iteration(t), here, log, at);
      if done.result.Some? {
        LoopEnvGrows(w, t, items[1..], rs + [done.result.value], here, done.log, at);
      }
    }
  }

  /** In the plain world every imported module call is made. */
  lemma {:induction false} PlainWorldImports(ts: seq<Task>, log: Log, at: Place)
    requires forall k :: 0 <= k < |ts| ==> ts[k].action.Module?
    ensures var d := RunFile(PlainWorld(Literally("", "")), ts, map[], log, at, 0);
            d.result.Some? && |d.log| == |log| + |ts|
    decreases |ts|
  {
    if ts != [] {
      var w := PlainWorld(Literally("", ""));
      PlainWorldCalls("", "", ts[0], map[]);
      var ev := Event(Render(w.engine, ts[0], map[]).task.value.action, map[], at);
      PlainWorldImports(ts[1..], log + [ev], at);
    }
  }

  /** In place a call with controls is not made, or fails, or binds something. */
  lemma PlainWorldExecutes(t: Task, log: Log, at: Place)
    requires t.action.Module?
    ensures var s := Execute(PlainWorld(Literally("", "")), t, map[], log, at);
            s.ok && s.env == map[] ==> |s.log| == |log| + if Unconditional(t) then 1 else 0
  {
    var w := PlainWorld(Literally("", ""));
    PlainWorldCalls("", "", t, map[]);
    assert t.loop.NoLoop? ==> t.(loop := NoLoop) == t;
    var items := LoopItems(w.engine, t.loop, map[]);
    if t.loop.NoLoop? {
      NotTruth(t.when_);
      assert t.register != "" ==> forall v: Value :: t.register in map[t.register := v];
    } else if items.Some? {
      LoopEnvGrows(w, t, items.value, [], map[], log, at);
      var (s, rs) := RunLoop(w, t, items.value, [], map[], log, at);
      assert Execute(w, t, map[], log, at) == if s.ok then Register(s, t.register, LoopValue(rs)) else s;
      assert items.value != [] ==> "item" in Execute(w, t, map[], log, at).env;
      assert items.value == [] ==> s.log == log;
    }
  }

  /** Text that is not a lone value is no truth. */
  lemma NotTruth(when_: string)
    ensures When(Literally("", ""), when_, map[]) == Some(when_ == "")
  {
    var s := "{{ " + when_ + " }}";
    assert s[0] == '{';
  }

  lemma {:induction false} PlainWorldFallsShort(ts: seq<Task>, log: Log, at: Place)
    requires forall k :: 0 <= k < |ts| ==> ts[k].action.Module?
    ensures var s := ExecuteAll(PlainWorld(Literally("", "")), ts, map[], log, at);
            s.ok && s.env == map[] ==>
              |s.log| <= |log| + |ts|
                  && (|s.log| == |log| + |ts| ==> forall k :: 0 <= k < |ts| ==> Unconditional(ts[k]))
    decreases |ts|
  {
    if ts != [] {
      var w := PlainWorld(Literally("", ""));
      PlainWorldExecutes(ts[0], log, at);
      var s := Execute(w, ts[0], map[], log, at);
      if s.ok {
        EnvGrows(w, ts[1..], s.env, s.log, at);
        if s.env == map[] {
          PlainWorldFallsShort(ts[1..], s.log, at);
          forall k | 0 <= k < |ts| && Unconditional(ts[0]) && (k > 0 ==> Unconditional(ts[1..][k - 1]))
            ensures Unconditional(ts[k])
          {}
        }
      }
    }
  }

  /**
   A file of module calls does the same imported and in place, in every world, if and only if none of
   its tasks uses a condition, a loop or a register.
   */
  lemma FileAgreesIffUnconditional(ts: seq<Task>)
    requires forall k :: 0 <= k < |ts| ==> ts[k].action.Module?
    ensures (forall k :: 0 <= k < |ts| ==> Unconditional(ts[k])) <==>
            forall w: World, env: Vars, log: Log, at: Place :: FileAgrees(w, ts, env, log, at)
  {
    if forall k :: 0 <= k < |ts| ==> Unconditional(ts[k]) {
      forall w: World, env: Vars, log: Log, at: Place ensures FileAgrees(w, ts, env, log, at) {
        FileIsInlinedStripped(w, ts, env, log, at);
        assert StripAll(ts) == ts && ts[..|ts|] == ts;
        assert Controlled(w.engine, ts, env) == |ts|;
      }
    }
    if forall w: World, env: Vars, log: Log, at: Place :: FileAgrees(w, ts, env, log, at) {
      var w, at := PlainWorld(Literally("", "")), Place("", false);
      assert FileAgrees(w, ts, map[], [], at);
      PlainWorldImports(ts, [], at);
      PlainWorldFallsShort(ts, [], at);
    }
  }
}
