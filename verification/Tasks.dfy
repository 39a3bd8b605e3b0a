/**
 The meaning of tasks, roles and plays, by values: an environment goes in and comes out, and every
 module call is recorded with the environment it saw. Modules, the template engine and the file
 system behind task files are parameters.
 */
module Tasks {
  import opened Prelude
  import opened Variables
  import opened Templates

  datatype Task = Task(name: string, when_: string, loop: Loop, action: Action, register: string)

  /** Where tasks come from: the directory their files are relative to, and whether that is a role's. */
  datatype Place = Place(dir: string, inRole: bool)

  /**
   A module call as it happens, with the rendered content and the variables in scope; or the end of a
   nesting too deep.
  */
  datatype Event = Event(action: Action, env: Vars, at: Place) | Overflow

  type Log = seq<Event>

  datatype Result = Result(changed: bool, skipped: bool, failed: bool, payload: string)

  const NO_RESULT := Result(false, false, false, "")

  /**
   What the interpreter is run against. `perform` is every module's Apply: its outcome, or an
   error, may depend on all that was done before. `depth` is how many task files can be open inside
   one another before the stack is used up and the program dies.
   */
  datatype World = World(
    engine: Engine,
    valid: Action -> bool,
    perform: (Log, Event) -> Option<Result>,
    join: (string, string) -> string,
    files: string -> Option<seq<Task>>,
    depth: nat)

  /** Where the file of an import or include is looked for. */
  function TaskPath(w: World, at: Place, file: string): string {
    w.join(if at.inRole then w.join(at.dir, "tasks") else at.dir, file)
  }

  predicate Valid(w: World, a: Action) {
    match a
    case Module(_, _) => w.valid(a)
    case TaskFile(f) => f != ""
  }

  // ---------------------------------------------------------------- conditions

  /** `strconv.Atoi`, as far as being a number other than 0 goes. */
  predicate Digits(s: string) {
    s != "" && forall k :: 0 <= k < |s| ==> '0' <= s[k] <= '9'
  }

  function Decimal(s: string): nat
    requires forall k :: 0 <= k < |s| ==> '0' <= s[k] <= '9'
  {
    if s == "" then 0 else 10 * Decimal(s[..|s| - 1]) + (s[|s| - 1] as int - '0' as int)
  }

  const INT64_LIMIT: nat := 0x8000_0000_0000_0000

  function Atoi(s: string): Option<int> {
    if s != "" && s[0] == '-' then
      if Digits(s[1..]) && Decimal(s[1..]) <= INT64_LIMIT then Some(0 - Decimal(s[1..]) as int) else None
    else
      var t := if s != "" && s[0] == '+' then s[1..] else s;
      if Digits(t) && Decimal(t) < INT64_LIMIT then Some(Decimal(t)) else None
  }

  predicate Truth(s: string) {
    s == "True" || s == "true"
    || (s != "False" && s != "false" && Atoi(s).Some? && Atoi(s).value != 0)
  }

  /** `JinjaProcessWhen`: an error, or whether to run. */
  function When(e: Engine, when_: string, env: Vars): Option<bool> {
    if when_ == "" then Some(true)
    else
      match e.text("{{ " + when_ + " }}", env)
      case None => None
      case Some(s) => Some(Truth(s))
  }

  // ---------------------------------------------------------------- one task

  /** A task after rendering, if that succeeds; and the content it leaves in place either way. */
  datatype Rendering = Rendering(task: Option<Task>, left: Action)

  function Render(e: Engine, t: Task, env: Vars): Rendering {
    var name, when_ := RenderText(e, t.name, env), RenderText(e, t.when_, env);
    if name.None? || when_.None? || (t.loop.Template? && RenderToSlice(e, t.loop.template, env).None?) then
      Rendering(None, t.action)
    else
      var (a, ok) := RenderAction(e, t.action, env);
      var register := RenderText(e, t.register, env);
      if !ok || register.None? then Rendering(None, a)
      else Rendering(Some(Task(name.value, when_.value, t.loop, a, register.value)), a)
  }

  /** What an action did: the log so far, and its result unless it failed. */
  datatype Ran = Ran(log: Log, result: Option<Result>)

  /** `Task.Apply`, where `n` more task files can be opened. */
  function Act(w: World, a: Action, env: Vars, log: Log, at: Place, n: nat): Ran
    decreases n, 0
  {
    match a
    case Module(_, _) =>
      var ev := Event(a, env, at);
      Ran(log + [ev], w.perform(log, ev))
    case TaskFile(f) =>
      if n == 0 then Ran(log + [Overflow], None)
      else
        match w.files(TaskPath(w, at, f))
        case None => Ran(log, None)
        case Some(tasks) => RunFile(w, tasks, env, log, at, n - 1)
  }

  /**
   The loop of `ImportTasks.Apply` and `IncludeTasks.Apply`: each task is rendered whole and
   applied; its condition, loop and register are not acted on.
   */
  function RunFile(w: World, tasks: seq<Task>, env: Vars, log: Log, at: Place, n: nat): Ran
    decreases n, 1 + |tasks|
  {
    if tasks == [] then Ran(log, Some(NO_RESULT))
    else
      var t := Render(w.engine, tasks[0], env).task;
      if t.None? || !Valid(w, t.value.action) then Ran(log, None)
      else
        var done := Act(w, t.value.action, env, log, at, n);
        if done.result.None? then done
        else RunFile(w, tasks[1..], env, done.log, at, n)
  }

  /** `processAndRunTask`, for a task without a loop. */
  function Process(w: World, t: Task, env: Vars, log: Log, at: Place): Ran
  {
    var r := Render(w.engine, t.(loop := NoLoop), env).task;
    if r.None? then Ran(log, None)
    else
      match When(w.engine, r.value.when_, env)
      case None => Ran(log, None)
      case Some(false) => Ran(log, Some(NO_RESULT))
      case Some(true) =>
        if !Valid(w, r.value.action) then Ran(log, None)
        else Act(w, r.value.action, env, log, at, w.depth)
  }

  /** `resultToMap`. */
  function ToValue(r: Result): Value {
    Registered(r.changed, r.skipped, r.failed, r.payload, [])
  }

  function Flag(rs: seq<Result>, f: Result -> bool): bool {
    exists k :: 0 <= k < |rs| && f(rs[k])
  }

  /** A loop's result: flags raised by any iteration, and the results in order. */
  function LoopValue(rs: seq<Result>): Value {
    Registered(Flag(rs, (r: Result) => r.changed), Flag(rs, (r: Result) => r.skipped),
               Flag(rs, (r: Result) => r.failed), "",
               seq(|rs|, i requires 0 <= i < |rs| => ToValue(rs[i])))
  }

  /** Where a run of tasks got to: environment, log, and whether it may go on. */
  datatype State = State(env: Vars, log: Log, ok: bool)

  function Register(s: State, name: string, v: Value): State {
    if name == "" then s else s.(env := s.env[name := v])
  }

  /** The task an iteration runs: the name and a fresh copy of the content, nothing else. */
  function Iteration(t: Task): Task {
    Task(t.name, "", NoLoop, t.action, "")
  }

  /** The loop of `ExecuteTask`, with the results of the iterations so far. */
  function RunLoop(w: World, t: Task, items: seq<Value>, rs: seq<Result>, env: Vars, log: Log, at: Place)
    : (State, seq<Result>)
    decreases |items|
  {
    if items == [] then (State(env, log, true), rs)
    else
      var here := env["item" := items[0]];
      var done := Process(w, Iteration(t), here, log, at);
      if done.result.None? then (State(here, done.log, false), rs)
      else RunLoop(w, t, items[1..], rs + [done.result.value], here, done.log, at)
  }

  /** `ExecuteTask`. */
  function Execute(w: World, t: Task, env: Vars, log: Log, at: Place): State
  {
    if t.loop.NoLoop? then
      var done := Process(w, t, env, log, at);
      if done.result.None? then State(env, done.log, false)
      else Register(State(env, done.log, true), t.register, ToValue(done.result.value))
    else
      match LoopItems(w.engine, t.loop, env)
      case None => State(env, log, false)
      case Some(items) =>
        var (s, rs) := RunLoop(w, t, items, [], env, log, at);
        if s.ok then Register(s, t.register, LoopValue(rs)) else s
  }

  function ExecuteAll(w: World, ts: seq<Task>, env: Vars, log: Log, at: Place): State
  {
    if ts == [] then State(env, log, true)
    else
      var s := Execute(w, ts[0], env, log, at);
      if !s.ok then s else ExecuteAll(w, ts[1..], s.env, s.log, at)
  }

  // ---------------------------------------------------------------- roles, plays, playbooks

  datatype Role = Role(defaults: Vars, vars: Vars, tasks: seq<Task>)

  datatype Play = Play(hosts: string, roles: seq<string>, tasks: seq<Task>, vars: Vars, varsFiles: seq<string>)

  /**
   What a playbook is applied with: the world, the node and its groups, the inventory's variables, and where
   things are.
  */
  datatype Setting = Setting(world: World, node: string, groups: set<string>, inventory: Vars,
                             loadVars: string -> Option<Vars>, playbookDir: string, rolesDir: string)

  /** The environment the tasks of a role start in: defaults, then what the play has, then the role's own variables. */
  function RoleEnv(role: Role, env: Vars): Vars {
    role.defaults + env + role.vars
  }

  /** `Role.Apply`: afterwards the play sees its old variables overridden by the role's own. */
  function RunRole(w: World, role: Role, env: Vars, log: Log, parent: string): State
  {
    var s := ExecuteAll(w, role.tasks, RoleEnv(role, env), log, Place(parent, true));
    if s.ok then State(env + role.vars, s.log, true) else State(env, s.log, false)
  }

  function RunRoles(st: Setting, roles: map<string, Role>, names: seq<string>, env: Vars, log: Log): State
  {
    if names == [] then State(env, log, true)
    else if names[0] !in roles then State(env, log, false)
    else
      var s := RunRole(st.world, roles[names[0]], env, log, st.world.join(st.rolesDir, names[0]));
      if !s.ok then s else RunRoles(st, roles, names[1..], s.env, s.log)
  }

  predicate Matches(st: Setting, hosts: string) {
    hosts in st.groups || hosts == st.node
  }

  /** `vars_files`, loaded in order over what the play has. */
  function LoadVars(st: Setting, files: seq<string>, env: Vars): Option<Vars> {
    if files == [] then Some(env)
    else
      match st.loadVars(st.world.join(st.playbookDir, files[0]))
      case None => None
      case Some(vars) => LoadVars(st, files[1..], env + vars)
  }

  function RunPlay(st: Setting, roles: map<string, Role>, play: Play, log: Log): State
  {
    match LoadVars(st, play.varsFiles, st.inventory + play.vars)
    case None => State(map[], log, false)
    case Some(env) =>
      var s := RunRoles(st, roles, play.roles, env, log);
      if !s.ok then s
      else ExecuteAll(st.world, play.tasks, s.env, s.log, Place(st.playbookDir, false))
  }

  /** `playbookApply`: the log it leaves and whether it succeeded. */
  function RunPlaybook(st: Setting, roles: map<string, Role>, plays: seq<Play>, log: Log): (Log, bool)
  {
    if plays == [] then (log, true)
    else if !Matches(st, plays[0].hosts) then RunPlaybook(st, roles, plays[1..], log)
    else
      var s := RunPlay(st, roles, plays[0], log);
      if !s.ok then (s.log, false) else RunPlaybook(st, roles, plays[1..], s.log)
  }
}
