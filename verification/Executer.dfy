/**
 The run as the program performs it: variables in maps reached by reference, and task contents
 rendered in place behind the pointers that plays and roles share with every execution.
 */
module Executer {
  import opened Prelude
  import opened Variables
  import opened Templates
  import opened Tasks
  import opened Stored

  /** The message behind a task: its strings are overwritten by rendering. */
  class Content {
    var action: Action

    constructor (action: Action)
      ensures this.action == action
    {
      this.action := action;
    }
  }

  /** A task as parsed; every execution reaches the same `content`. */
  class ProtoTask {
    const name: string
    const when_: string
    const loop: Loop
    const register: string
    const content: Content

    constructor (name: string, when_: string, loop: Loop, register: string, content: Content)
      ensures this.name == name && this.when_ == when_ && this.loop == loop && this.register == register
          && this.content == content
    {
      this.name, this.when_, this.loop, this.register, this.content := name, when_, loop, register, content;
    }

    ghost function Value(): Task
      reads content
    {
      Task(name, when_, loop, content.action, register)
    }
  }

  /** A task ready to execute: its strings copied, its content shared. */
  datatype ExecTask = ExecTask(name: string, when_: string, loop: Loop, content: Content, register: string)

  function FromProto(pt: ProtoTask): ExecTask {
    ExecTask(pt.name, pt.when_, pt.loop, pt.content, pt.register)
  }

  /** What modules have been called with so far. */
  class Recorder {
    var log: Log
  }

  /** The meaning of `t` while its content is `a`. */
  ghost function Meaning(t: ExecTask, a: Action): Task {
    Task(t.name, t.when_, t.loop, a, t.register)
  }

  // ---------------------------------------------------------------- one task

  /** `ProcessJinjaTemplates` on a task: its own strings in the caller's copy, its content in place. */
  method ProcessTemplates(e: Engine, task: ExecTask, vars: VarMap) returns (r: Option<ExecTask>)
    modifies task.content
    ensures var rendering := Render(e, Meaning(task, old(task.content.action)), vars.m);
            && task.content.action == rendering.left
            && (r.Some? <==> rendering.task.Some?)
            && (r.Some? ==> Meaning(r.value, rendering.left) == rendering.task.value && r.value.content == task.content)
  {
    var name := RenderText(e, task.name, vars.m);
    if name.None? { return None; }
    var when_ := RenderText(e, task.when_, vars.m);
    if when_.None? { return None; }
    if task.loop.Template? {
      var loop := RenderToSlice(e, task.loop.template, vars.m);
      if loop.None? { return None; }
    }
    match task.content.action {
      case Module(kind, fields) =>
        var out, ok := ProcessFields(e, fields, vars.m);
        task.content.action := Module(kind, out);
        if !ok { return None; }
      case TaskFile(file) =>
        var f := RenderText(e, file, vars.m);
        if f.None? { return None; }
        task.content.action := TaskFile(f.value);
    }
    var register := RenderText(e, task.register, vars.m);
    if register.None? { return None; }
    return Some(ExecTask(name.value, when_.value, task.loop, task.content, register.value));
  }

  /** `Task.Apply`. */
  method Apply(w: World, a: Action, vars: VarMap, rec: Recorder, at: Place, n: nat) returns (r: Option<Result>)
    modifies rec
    ensures Ran(rec.log, r) == Act(w, a, vars.m, old(rec.log), at, n)
    decreases n, 0
  {
    match a {
      case Module(_, _) =>
        var ev := Event(a, vars.m, at);
        r := w.perform(rec.log, ev);
        rec.log := rec.log + [ev];
      case TaskFile(file) =>
        if n == 0 {
          rec.log := rec.log + [Overflow];
          return None;
        }
        var tasks := w.files(TaskPath(w, at, file));
        if tasks.None? { return None; }
        r := ApplyFile(w, tasks.value, vars, rec, at, n - 1);
    }
  }

  /** The task loop of `ImportTasks.Apply` and `IncludeTasks.Apply`; the file is parsed anew on every call. */
  method ApplyFile(w: World, tasks: seq<Task>, vars: VarMap, rec: Recorder, at: Place, n: nat)
    returns (r: Option<Result>)
    modifies rec
    ensures Ran(rec.log, r) == RunFile(w, tasks, vars.m, old(rec.log), at, n)
    decreases n, 1 + |tasks|
  {
    var i := 0;
    assert tasks[0..] == tasks;
    while i < |tasks|
      invariant 0 <= i <= |tasks|
      invariant RunFile(w, tasks, vars.m, old(rec.log), at, n) == RunFile(w, tasks[i..], vars.m, rec.log, at, n)
    {
      assert tasks[i..][0] == tasks[i] && tasks[i..][1..] == tasks[i + 1..];
      var content := new Content(tasks[i].action);
      var task := ExecTask(tasks[i].name, tasks[i].when_, tasks[i].loop, content, tasks[i].register);
      assert Meaning(task, content.action) == tasks[i];
      var rendered := ProcessTemplates(w.engine, task, vars);
      if rendered.None? { return None; }
      if !Valid(w, content.action) { return None; }
      var result := Apply(w, content.action, vars, rec, at, n);
      if result.None? { return None; }
      i := i + 1;
    }
    return Some(NO_RESULT);
  }

  method ProcessAndRunTask(w: World, task: ExecTask, vars: VarMap, rec: Recorder, at: Place) returns (r: Option<Result>)
    requires task.loop.NoLoop?
    modifies task.content, rec
    ensures Ran(rec.log, r) == Process(w, Meaning(task, old(task.content.action)), vars.m, old(rec.log), at)
    ensures task.content.action == Render(w.engine, Meaning(task, old(task.content.action)), vars.m).left
  {
    var rendered := ProcessTemplates(w.engine, task, vars);
    if rendered.None? { return None; }
    var condition := When(w.engine, rendered.value.when_, vars.m);
    if condition.None? { return None; }
    if !condition.value { return Some(NO_RESULT); }
    if !Valid(w, task.content.action) { return None; }
    r := Apply(w, task.content.action, vars, rec, at, w.depth);
  }

  method ExecuteTask(w: World, task: ExecTask, vars: VarMap, rec: Recorder, at: Place) returns (ok: bool)
    modifies task.content, vars, rec
    ensures State(vars.m, rec.log, ok)
        == Execute(w, Meaning(task, old(task.content.action)), old(vars.m), old(rec.log), at)
    ensures Meaning(task, task.content.action) == After(w, Meaning(task, old(task.content.action)), old(vars.m))
  {
    if task.loop.NoLoop? {
      var result := ProcessAndRunTask(w, task, vars, rec, at);
      if result.None? { return false; }
      if task.register != "" {
        vars.Set(task.register, ToValue(result.value));
      }
      return true;
    }
    var items := LoopItems(w.engine, task.loop, vars.m);
    if items.None? { return false; }
    ghost var t := Meaning(task, task.content.action);
    var results: seq<Result> := [];
    var i := 0;
    assert items.value[0..] == items.value;
    while i < |items.value|
      invariant 0 <= i <= |items.value|
      invariant task.content.action == t.action
      invariant RunLoop(w, t, items.value, [], old(vars.m), old(rec.log), at)
             == RunLoop(w, t, items.value[i..], results, vars.m, rec.log, at)
    {
      assert items.value[i..][0] == items.value[i] && items.value[i..][1..] == items.value[i + 1..];
      var newContent := new Content(task.content.action);
      var iterTask := ExecTask(task.name, "", NoLoop, newContent, "");
      assert Meaning(iterTask, newContent.action) == Iteration(t);
      vars.Set("item", items.value[i]);
      var result := ProcessAndRunTask(w, iterTask, vars, rec, at);
      if result.None? { return false; }
      results := results + [result.value];
      i := i + 1;
    }
    if task.register != "" {
      vars.Set(task.register, LoopValue(results));
    }
    return true;
  }
}
