/**
 What a run means when every application of a role alters the task contents that the next
 application of it finds, and when that is no different from roles that never change.
 */
module Stored {
  import opened Prelude
  import opened Variables
  import opened Templates
  import opened Tasks
  import opened Nesting

  /** The task with the content its execution leaves in place: a looping task runs on copies. */
  function After(w: World, t: Task, env: Vars): Task {
    if t.loop.NoLoop? then t.(action := Render(w.engine, t, env).left) else t
  }

  /** The tasks as `ExecuteAll` leaves them behind the pointers. */
  function AllAfter(w: World, ts: seq<Task>, env: Vars, log: Log, at: Place): (r: seq<Task>)
    ensures |r| == |ts|
  {
    if ts == [] then []
    else
      var s := Execute(w, ts[0], env, log, at);
      [After(w, ts[0], env)] + (if s.ok then AllAfter(w, ts[1..], s.env, s.log, at) else ts[1..])
  }

  function RoleAfter(w: World, role: Role, env: Vars, log: Log, parent: string): Role
  {
    role.(tasks := AllAfter(w, role.tasks, RoleEnv(role, env), log, Place(parent, true)))
  }

  /** The roles of a play, applied in order, each altering what is stored under its name. */
  function StoredRoles(st: Setting, roles: map<string, Role>, names: seq<string>, env: Vars, log: Log)
    : (State, map<string, Role>)
    decreases |names|
  {
    if names == [] then (State(env, log, true), roles)
    else if names[0] !in roles then (State(env, log, false), roles)
    else
      var parent := st.world.join(st.rolesDir, names[0]);
      var s := RunRole(st.world, roles[names[0]], env, log, parent);
      var rest := roles[names[0] := RoleAfter(st.world, roles[names[0]], env, log, parent)];
      if !s.ok then (s, rest) else StoredRoles(st, rest, names[1..], s.env, s.log)
  }

  function StoredPlay(st: Setting, roles: map<string, Role>, play: Play, log: Log): (State, map<string, Role>)
  {
    match LoadVars(st, play.varsFiles, st.inventory + play.vars)
    case None => (State(map[], log, false), roles)
    case Some(env) =>
      var (s, rest) := StoredRoles(st, roles, play.roles, env, log);
      if !s.ok then (s, rest)
      else (ExecuteAll(st.world, play.tasks, s.env, s.log, Place(st.playbookDir, false)), rest)
  }

  /** The playbook, over roles that each application may alter. */
  function StoredPlaybook(st: Setting, roles: map<string, Role>, plays: seq<Play>, log: Log): (Log, bool)
    decreases |plays|
  {
    if plays == [] then (log, true)
    else if !Matches(st, plays[0].hosts) then StoredPlaybook(st, roles, plays[1..], log)
    else
      var (s, rest) := StoredPlay(st, roles, plays[0], log);
      if !s.ok then (s.log, false) else StoredPlaybook(st, rest, plays[1..], s.log)
  }

  // ---------------------------------------------------------------- when the alterations do not show

  /**
   Having been rendered with `first` does not show in a rendering with `now`: what the first has
   left renders as the task itself would.
   */
  predicate AbsorbsAt(e: Engine, t: Task, first: Vars, now: Vars) {
    Render(e, t, first).task.Some? ==>
      Render(e, t.(action := Render(e, t, first).left), now).task == Render(e, t, now).task
  }

  /** The environments that the tasks are executed in, as far as the run gets. */
  function MetBy(w: World, ts: seq<Task>, env: Vars, log: Log, at: Place): (r: seq<Vars>)
    ensures |r| <= |ts|
  {
    if ts == [] then []
    else
      var s := Execute(w, ts[0], env, log, at);
      [env] + (if s.ok then MetBy(w, ts[1..], s.env, s.log, at) else [])
  }

  /** The tasks, each as its execution in the environment of its own leaves it. */
  function LeftAll(w: World, ts: seq<Task>, envs: seq<Vars>): (r: seq<Task>)
    requires |envs| == |ts|
    ensures |r| == |ts| && forall k :: 0 <= k < |ts| ==> r[k] == After(w, ts[k], envs[k])
  {
    if ts == [] then [] else [After(w, ts[0], envs[0])] + LeftAll(w, ts[1..], envs[1..])
  }

  ghost predicate AllRendered(e: Engine, ts: seq<Task>, envs: seq<Vars>) {
    forall k :: 0 <= k < |ts| && k < |envs| && ts[k].loop.NoLoop? ==> Render(e, ts[k], envs[k]).task.Some?
  }

  /** Tasks executed in `before` show no trace of it in `now`, one by one. */
  ghost predicate AbsorbsAfter(e: Engine, ts: seq<Task>, before: seq<Vars>, now: seq<Vars>) {
    forall k :: 0 <= k < |ts| && k < |before| && k < |now| && ts[k].loop.NoLoop? ==>
      AbsorbsAt(e, ts[k], before[k], now[k])
  }

  lemma RenderedIsLeft(e: Engine, t: Task, env: Vars)
    requires Render(e, t, env).task.Some?
    ensures Render(e, t, env).task.value.action == Render(e, t, env).left
  {}

  lemma LeftRunsAlike(w: World, t: Task, before: Vars, env: Vars, log: Log, at: Place)
    requires t.loop.NoLoop? ==> AbsorbsAt(w.engine, t, before, env) && Render(w.engine, t, before).task.Some?
    ensures Execute(w, After(w, t, before), env, log, at) == Execute(w, t, env, log, at)
    ensures Execute(w, t, env, log, at).ok ==>
              && After(w, After(w, t, before), env) == After(w, t, env)
              && (t.loop.NoLoop? ==> Render(w.engine, t, env).task.Some?)
  {
    if t.loop.NoLoop? {
      var u := After(w, t, before);
      assert t.(loop := NoLoop) == t && u.(loop := NoLoop) == u;
      assert Render(w.engine, u, env).task == Render(w.engine, t, env).task;
      if Render(w.engine, t, env).task.Some? {
        RenderedIsLeft(w.engine, t, env);
        RenderedIsLeft(w.engine, u, env);
      }
    }
  }

  lemma {:induction false} LeftAllRunAlike(w: World, ts: seq<Task>, before: seq<Vars>, env: Vars, log: Log, at: Place)
    requires |before| == |ts| && AllRendered(w.engine, ts, before)
    requires AbsorbsAfter(w.engine, ts, before, MetBy(w, ts, env, log, at))
    ensures ExecuteAll(w, LeftAll(w, ts, before), env, log, at) == ExecuteAll(w, ts, env, log, at)
    ensures ExecuteAll(w, ts, env, log, at).ok ==>
              var met := MetBy(w, ts, env, log, at);
              && |met| == |ts| && AllRendered(w.engine, ts, met)
              && AllAfter(w, LeftAll(w, ts, before), env, log, at) == LeftAll(w, ts, met)
    decreases |ts|
  {
    if ts != [] {
      var met := MetBy(w, ts, env, log, at);
      assert met[0] == env;
      LeftRunsAlike(w, ts[0], before[0], env, log, at);
      var s := Execute(w, ts[0], env, log, at);
      if s.ok {
        assert met[1..] == MetBy(w, ts[1..], s.env, s.log, at);
        AbsorbsTail(w.engine, ts, before, met);
        LeftAllRunAlike(w, ts[1..], before[1..], s.env, s.log, at);
        if ExecuteAll(w, ts, env, log, at).ok { AllRenderedCons(w.engine, ts, met); }
      }
    }
  }

  lemma AbsorbsTail(e: Engine, ts: seq<Task>, before: seq<Vars>, met: seq<Vars>)
    requires ts != [] && before != [] && met != []
    requires AbsorbsAfter(e, ts, before, met) && AllRendered(e, ts, before)
    ensures AbsorbsAfter(e, ts[1..], before[1..], met[1..]) && AllRendered(e, ts[1..], before[1..])
  {}

  lemma AllRenderedCons(e: Engine, ts: seq<Task>, met: seq<Vars>)
    requires ts != [] && met != [] && AllRendered(e, ts[1..], met[1..])
    requires ts[0].loop.NoLoop? ==> Render(e, ts[0], met[0]).task.Some?
    ensures AllRendered(e, ts, met)
  {
    forall k | 0 <= k < |ts| && k < |met| && ts[k].loop.NoLoop? ensures Render(e, ts[k], met[k]).task.Some? {
      if k > 0 { assert ts[k] == ts[1..][k - 1] && met[k] == met[1..][k - 1]; }
    }
  }

  /** Tasks that have never been executed. */
  lemma {:induction false} FirstRun(w: World, ts: seq<Task>, env: Vars, log: Log, at: Place)
    requires ExecuteAll(w, ts, env, log, at).ok
    ensures var met := MetBy(w, ts, env, log, at);
            && |met| == |ts| && AllRendered(w.engine, ts, met)
            && AllAfter(w, ts, env, log, at) == LeftAll(w, ts, met)
    decreases |ts|
  {
    if ts != [] {
      var met := MetBy(w, ts, env, log, at);
      var s := Execute(w, ts[0], env, log, at);
      if ts[0].loop.NoLoop? {
        assert ts[0].(loop := NoLoop) == ts[0];
        assert Render(w.engine, ts[0], env).task.Some?;
      }
      assert met[0] == env && met[1..] == MetBy(w, ts[1..], s.env, s.log, at);
      FirstRun(w, ts[1..], s.env, s.log, at);
      AllRenderedCons(w.engine, ts, met);
    }
  }

  // ---------------------------------------------------------------- roles, plays, playbooks

  /** For each role applied so far, the environments its tasks met the last time. */
  type Met = map<string, seq<Vars>>

  /** What is stored: roles as they were, or as their last application left them. */
  ghost predicate Kept(w: World, stored: map<string, Role>, roles: map<string, Role>, met: Met) {
    && stored.Keys == roles.Keys
    && forall n :: n in roles ==> KeptRole(w, stored[n], roles[n], n, met)
  }

  ghost predicate KeptRole(w: World, stored: Role, role: Role, n: string, met: Met) {
    if n !in met then stored == role
    else
      && |met[n]| == |role.tasks| && AllRendered(w.engine, role.tasks, met[n])
      && stored == role.(tasks := LeftAll(w, role.tasks, met[n]))
  }

  function RoleMet(st: Setting, role: Role, name: string, env: Vars, log: Log): seq<Vars> {
    MetBy(st.world, role.tasks, RoleEnv(role, env), log, Place(st.world.join(st.rolesDir, name), true))
  }

  function MetAfter(st: Setting, roles: map<string, Role>, names: seq<string>, env: Vars, log: Log, met: Met): Met
    decreases |names|
  {
    if names == [] || names[0] !in roles then met
    else
      var s := RunRole(st.world, roles[names[0]], env, log, st.world.join(st.rolesDir, names[0]));
      MetAfter(st, roles, names[1..], s.env, s.log, met[names[0] := RoleMet(st, roles[names[0]], names[0], env, log)])
  }

  /** In a run by values, no application of a role shows traces of the one before. */
  ghost predicate RolesAbsorb(st: Setting, roles: map<string, Role>, names: seq<string>, env: Vars, log: Log, met: Met)
    decreases |names|
  {
    names != [] && names[0] in roles ==>
      var n, role := names[0], roles[names[0]];
      var s, now := RunRole(st.world, role, env, log, st.world.join(st.rolesDir, n)), RoleMet(st, role, n, env, log);
      && (n in met ==> AbsorbsAfter(st.world.engine, role.tasks, met[n], now))
      && (s.ok ==> RolesAbsorb(st, roles, names[1..], s.env, s.log, met[n := now]))
  }

  ghost predicate PlayAbsorbs(st: Setting, roles: map<string, Role>, play: Play, log: Log, met: Met) {
    var env := LoadVars(st, play.varsFiles, st.inventory + play.vars);
    env.Some? ==> RolesAbsorb(st, roles, play.roles, env.value, log, met)
  }

  function PlayMet(st: Setting, roles: map<string, Role>, play: Play, log: Log, met: Met): Met {
    match LoadVars(st, play.varsFiles, st.inventory + play.vars)
    case None => met
    case Some(env) => MetAfter(st, roles, play.roles, env, log, met)
  }

  /** The same for the plays, run by values: it looks only at environments that the run meets. */
  ghost predicate PlaybookAbsorbs(st: Setting, roles: map<string, Role>, plays: seq<Play>, log: Log, met: Met)
    decreases |plays|
  {
    plays != [] ==>
      if !Matches(st, plays[0].hosts) then PlaybookAbsorbs(st, roles, plays[1..], log, met)
      else
        var s := RunPlay(st, roles, plays[0], log);
        && PlayAbsorbs(st, roles, plays[0], log, met)
        && (s.ok ==> PlaybookAbsorbs(st, roles, plays[1..], s.log, PlayMet(st, roles, plays[0], log, met)))
  }

  /** Applying a kept role does what applying the role itself would, and leaves it kept. */
  lemma KeptRunsAlike(st: Setting, stored: Role, role: Role, n: string, env: Vars, log: Log, met: Met)
    requires KeptRole(st.world, stored, role, n, met)
    requires n in met ==> AbsorbsAfter(st.world.engine, role.tasks, met[n], RoleMet(st, role, n, env, log))
    ensures var parent := st.world.join(st.rolesDir, n);
            && RunRole(st.world, stored, env, log, parent) == RunRole(st.world, role, env, log, parent)
            && (RunRole(st.world, role, env, log, parent).ok ==>
                  KeptRole(st.world, RoleAfter(st.world, stored, env, log, parent), role, n,
                           met[n := RoleMet(st, role, n, env, log)]))
  {
    var at := Place(st.world.join(st.rolesDir, n), true);
    assert RoleEnv(stored, env) == RoleEnv(role, env);
    if n in met {
      LeftAllRunAlike(st.world, role.tasks, met[n], RoleEnv(role, env), log, at);
    } else if ExecuteAll(st.world, role.tasks, RoleEnv(role, env), log, at).ok {
      FirstRun(st.world, role.tasks, RoleEnv(role, env), log, at);
    }
  }

  lemma {:induction false} StoredRolesRefine(st: Setting, stored: map<string, Role>, roles: map<string, Role>,
                                             names: seq<string>, env: Vars, log: Log, met: Met)
    requires Kept(st.world, stored, roles, met) && RolesAbsorb(st, roles, names, env, log, met)
    ensures StoredRoles(st, stored, names, env, log).0 == RunRoles(st, roles, names, env, log)
    ensures RunRoles(st, roles, names, env, log).ok ==>
              Kept(st.world, StoredRoles(st, stored, names, env, log).1, roles,
                  MetAfter(st, roles, names, env, log, met))
    decreases |names|
  {
    if names != [] && names[0] in roles {
      var n, parent := names[0], st.world.join(st.rolesDir, names[0]);
      KeptRunsAlike(st, stored[n], roles[n], n, env, log, met);
      var s := RunRole(st.world, roles[n], env, log, parent);
      if s.ok {
        var next := stored[n := RoleAfter(st.world, stored[n], env, log, parent)];
        StoredRolesRefine(st, next, roles, names[1..], s.env, s.log, met[n := RoleMet(st, roles[n], n, env, log)]);
      }
    }
  }

  lemma StoredPlayRefines(st: Setting, stored: map<string, Role>, roles: map<string, Role>, play: Play, log: Log,
                          met: Met)
    requires Kept(st.world, stored, roles, met) && PlayAbsorbs(st, roles, play, log, met)
    ensures StoredPlay(st, stored, play, log).0 == RunPlay(st, roles, play, log)
    ensures RunPlay(st, roles, play, log).ok ==>
              Kept(st.world, StoredPlay(st, stored, play, log).1, roles, PlayMet(st, roles, play, log, met))
  {
    var env := LoadVars(st, play.varsFiles, st.inventory + play.vars);
    if env.Some? {
      StoredRolesRefine(st, stored, roles, play.roles, env.value, log, met);
    }
  }

  lemma {:induction false} StoredRefines(st: Setting, stored: map<string, Role>, roles: map<string, Role>,
                                         plays: seq<Play>, log: Log, met: Met)
    requires Kept(st.world, stored, roles, met) && PlaybookAbsorbs(st, roles, plays, log, met)
    ensures StoredPlaybook(st, stored, plays, log) == RunPlaybook(st, roles, plays, log)
    decreases |plays|
  {
    if plays != [] {
      if !Matches(st, plays[0].hosts) {
        StoredRefines(st, stored, roles, plays[1..], log, met);
      } else {
        StoredPlayRefines(st, stored, roles, plays[0], log, met);
        var s := RunPlay(st, roles, plays[0], log);
        if s.ok {
          StoredRefines(st, StoredPlay(st, stored, plays[0], log).1, roles, plays[1..], s.log,
                        PlayMet(st, roles, plays[0], log, met));
        }
      }
    }
  }

  /** A run over shared contents is a run over values when no application of a role shows traces of the one before. */
  lemma Refinement(st: Setting, roles: map<string, Role>, plays: seq<Play>, log: Log)
    requires PlaybookAbsorbs(st, roles, plays, log, map[])
    ensures StoredPlaybook(st, roles, plays, log) == RunPlaybook(st, roles, plays, log)
  {
    StoredRefines(st, roles, roles, plays, log, map[]);
  }

  // ---------------------------------------------------------------- a condition on the text of a playbook

  /** Every template of `t` gives what it gave, whatever the variables were the first time and are now. */
  ghost predicate Absorbing(e: Engine, t: Task) {
    t.loop.NoLoop? ==>
      forall first: Vars, now: Vars :: AbsorbsAt(e, t, first, now)
  }

  ghost predicate AllAbsorbing(e: Engine, ts: seq<Task>) {
    forall k :: 0 <= k < |ts| ==> Absorbing(e, ts[k])
  }

  /** No role is applied twice unless all its tasks are absorbing. */
  ghost predicate OnceOrAbsorbing(e: Engine, roles: map<string, Role>, todo: seq<string>) {
    forall i, j :: 0 <= i < j < |todo| && todo[i] == todo[j] && todo[i] in roles ==>
        AllAbsorbing(e, roles[todo[i]].tasks)
  }

  /** The roles that a run applies to the node, in order, if nothing fails. */
  function Applications(st: Setting, plays: seq<Play>): seq<string> {
    if plays == [] then []
    else (if Matches(st, plays[0].hosts) then plays[0].roles else []) + Applications(st, plays[1..])
  }

  /** Roles applied before that are still to be applied are absorbing. */
  ghost predicate MetAreAbsorbing(e: Engine, roles: map<string, Role>, met: Met, todo: seq<string>) {
    forall k :: 0 <= k < |todo| && todo[k] in met && todo[k] in roles ==> AllAbsorbing(e, roles[todo[k]].tasks)
  }

  lemma OnceLater(e: Engine, roles: map<string, Role>, n: string, todo: seq<string>, met: Met, now: seq<Vars>)
    requires todo != [] && todo[0] == n
    requires OnceOrAbsorbing(e, roles, todo) && MetAreAbsorbing(e, roles, met, todo)
    ensures OnceOrAbsorbing(e, roles, todo[1..]) && MetAreAbsorbing(e, roles, met[n := now], todo[1..])
  {
    forall k | 0 <= k < |todo[1..]| && todo[1..][k] in met[n := now] && todo[1..][k] in roles
      ensures AllAbsorbing(e, roles[todo[1..][k]].tasks)
    {
      assert todo[1..][k] == todo[k + 1];
    }
  }

  lemma {:induction false} OnceRolesAbsorb(st: Setting, roles: map<string, Role>, names: seq<string>,
                                           later: seq<string>, env: Vars, log: Log, met: Met)
    requires OnceOrAbsorbing(st.world.engine, roles, names + later)
    requires MetAreAbsorbing(st.world.engine, roles, met, names + later)
    ensures RolesAbsorb(st, roles, names, env, log, met)
    ensures RunRoles(st, roles, names, env, log).ok ==>
              && OnceOrAbsorbing(st.world.engine, roles, later)
              && MetAreAbsorbing(st.world.engine, roles, MetAfter(st, roles, names, env, log, met), later)
    decreases |names|
  {
    if names == [] {
      assert names + later == later;
    } else if names[0] in roles {
      var n, todo := names[0], names + later;
      var s := RunRole(st.world, roles[n], env, log, st.world.join(st.rolesDir, n));
      var now := RoleMet(st, roles[n], n, env, log);
      assert todo[0] == n && todo[1..] == names[1..] + later;
      OnceLater(st.world.engine, roles, n, todo, met, now);
      if s.ok {
        OnceRolesAbsorb(st, roles, names[1..], later, s.env, s.log, met[n := now]);
      }
    }
  }

  lemma {:induction false} OnceAbsorbs(st: Setting, roles: map<string, Role>, plays: seq<Play>, log: Log, met: Met)
    requires OnceOrAbsorbing(st.world.engine, roles, Applications(st, plays))
    requires MetAreAbsorbing(st.world.engine, roles, met, Applications(st, plays))
    ensures PlaybookAbsorbs(st, roles, plays, log, met)
    decreases |plays|
  {
    if plays != [] {
      var later := Applications(st, plays[1..]);
      if !Matches(st, plays[0].hosts) {
        assert [] + later == later;
        OnceAbsorbs(st, roles, plays[1..], log, met);
      } else {
        var env := LoadVars(st, plays[0].varsFiles, st.inventory + plays[0].vars);
        if env.Some? {
          OnceRolesAbsorb(st, roles, plays[0].roles, later, env.value, log, met);
          var s := RunPlay(st, roles, plays[0], log);
          if s.ok {
            OnceAbsorbs(st, roles, plays[1..], s.log, PlayMet(st, roles, plays[0], log, met));
          }
        }
      }
    }
  }

  /** In particular when no role is applied twice, but for absorbing ones. */
  lemma OnceRefines(st: Setting, roles: map<string, Role>, plays: seq<Play>, log: Log)
    requires OnceOrAbsorbing(st.world.engine, roles, Applications(st, plays))
    ensures PlaybookAbsorbs(st, roles, plays, log, map[])
    ensures StoredPlaybook(st, roles, plays, log) == RunPlaybook(st, roles, plays, log)
  {
    OnceAbsorbs(st, roles, plays, log, map[]);
    Refinement(st, roles, plays, log);
  }

  // ---------------------------------------------------------------- the condition cannot be weakened

  /** Module calls without condition, loop or register. */
  predicate PlainCalls(ts: seq<Task>) {
    forall k :: 0 <= k < |ts| ==>
      ts[k].action.Module? && ts[k].loop.NoLoop? && ts[k].when_ == "" && ts[k].register == ""
  }

  predicate RendersIn(e: Engine, ts: seq<Task>, env: Vars) {
    forall k :: 0 <= k < |ts| ==> Render(e, ts[k], env).task.Some?
  }

  /** The one role of a playbook. */
  function Only(ts: seq<Task>): map<string, Role> {
    map["role" := Role(map[], map[], ts)]
  }

  /** A world in which every module call is valid and succeeds, and there are no task files. */
  function Obliging(e: Engine): World {
    World(e, (a: Action) => true, (l: Log, ev: Event) => Some(NO_RESULT), (a: string, b: string) => "",
          (p: string) => None, 0)
  }

  function Bare(e: Engine): Setting {
    Setting(Obliging(e), "node", {}, map[], (p: string) => None, "", "")
  }

  function PlayWith(vars: Vars): Play {
    Play("node", ["role"], [], vars, [])
  }

  const HERE := Place("", true)

  /** The role once, by a play that does nothing else. */
  lemma BareRun(e: Engine, ts: seq<Task>, vars: Vars, rest: seq<Play>, log: Log)
    ensures var s := ExecuteAll(Obliging(e), ts, vars, log, HERE);
            var after := AllAfter(Obliging(e), ts, vars, log, HERE);
            && StoredPlaybook(Bare(e), Only(ts), [PlayWith(vars)] + rest, log) ==
               (if !s.ok then (s.log, false) else StoredPlaybook(Bare(e), Only(after), rest, s.log))
            && RunPlaybook(Bare(e), Only(ts), [PlayWith(vars)] + rest, log) ==
               (if !s.ok then (s.log, false) else RunPlaybook(Bare(e), Only(ts), rest, s.log))
  {
    var st, play, role := Bare(e), PlayWith(vars), Role(map[], map[], ts);
    assert ([play] + rest)[0] == play && ([play] + rest)[1..] == rest;
    assert map[] + vars == vars && vars + map[] == vars && RoleEnv(role, vars) == vars;
    assert LoadVars(st, play.varsFiles, st.inventory + play.vars) == Some(vars);
    var s := RunRole(Obliging(e), role, vars, log, "");
    assert play.roles[0] == "role" && play.roles[1..] == [];
    if s.ok {
      assert ExecuteAll(Obliging(e), [], vars, s.log, Place("", false)) == State(vars, s.log, true);
      var after := RoleAfter(Obliging(e), role, vars, log, "");
      assert Only(ts)["role" := after] == Only(after.tasks);
      assert StoredRoles(st, Only(ts), play.roles, vars, log) == (State(vars, s.log, true), Only(after.tasks));
      assert RunRoles(st, Only(ts), play.roles, vars, log) == State(vars, s.log, true);
    }
  }

  lemma PlainCall(e: Engine, t: Task, env: Vars, log: Log)
    requires PlainCalls([t])
    ensures var r := Render(e, t, env).task;
            Execute(Obliging(e), t, env, log, HERE) ==
            if r.None? then State(env, log, false) else State(env, log + [Event(r.value.action, env, HERE)], true)
  {
    assert [t][0] == t && t.(loop := NoLoop) == t;
  }

  /** Plain calls all meet the environment they start in, each after those before it have rendered. */
  lemma {:induction false} PlainMet(w: World, ts: seq<Task>, env: Vars, log: Log, at: Place)
    requires PlainCalls(ts)
    ensures var met := MetBy(w, ts, env, log, at);
            forall k :: 0 <= k < |met| ==> met[k] == env && RendersIn(w.engine, ts[..k], env)
    ensures ExecuteAll(w, ts, env, log, at).ok ==> RendersIn(w.engine, ts, env)
    decreases |ts|
  {
    if ts != [] {
      var s, met := Execute(w, ts[0], env, log, at), MetBy(w, ts, env, log, at);
      assert ts[0].(loop := NoLoop) == ts[0];
      assert s.ok ==> Render(w.engine, ts[0], env).task.Some? && s.env == env;
      if s.ok {
        PlainMet(w, ts[1..], s.env, s.log, at);
        assert met[1..] == MetBy(w, ts[1..], s.env, s.log, at);
        forall k | 0 <= k < |met| ensures met[k] == env && RendersIn(w.engine, ts[..k], env) {
          if k > 0 {
            assert met[k] == met[1..][k - 1];
            RendersCons(w.engine, ts, k, env);
          }
        }
        if ExecuteAll(w, ts, env, log, at).ok {
          assert ts[1..][..|ts| - 1] == ts[1..] && ts[..|ts|] == ts;
          RendersCons(w.engine, ts, |ts|, env);
        }
      }
    }
  }

  lemma RendersCons(e: Engine, ts: seq<Task>, k: nat, env: Vars)
    requires 0 < k <= |ts| && Render(e, ts[0], env).task.Some? && RendersIn(e, ts[1..][..k - 1], env)
    ensures RendersIn(e, ts[..k], env)
  {
    forall j | 0 <= j < k ensures Render(e, ts[..k][j], env).task.Some? {
      if j > 0 { assert ts[..k][j] == ts[1..][..k - 1][j - 1]; }
    }
  }

  /** Plain calls that render all succeed. */
  lemma {:induction false} PlainRun(e: Engine, ts: seq<Task>, env: Vars, log: Log)
    requires PlainCalls(ts) && RendersIn(e, ts, env)
    ensures ExecuteAll(Obliging(e), ts, env, log, HERE).ok
    decreases |ts|
  {
    if ts != [] {
      assert PlainCalls([ts[0]]) && Render(e, ts[0], env).task.Some?;
      PlainCall(e, ts[0], env, log);
      var s := Execute(Obliging(e), ts[0], env, log, HERE);
      PlainRun(e, ts[1..], env, s.log);
    }
  }

  /** Plain calls, the first to render differently being reached, are logged differently. */
  lemma {:induction false} Diverge(e: Engine, ss: seq<Task>, ts: seq<Task>, env: Vars, log: Log, k: nat)
    requires PlainCalls(ts) && k < |ts| == |ss| && RendersIn(e, ts[..k], env)
    requires forall j :: 0 <= j < |ts| ==> ss[j].action.Module? && ss[j] == ts[j].(action := ss[j].action)
    requires Render(e, ss[k], env).task != Render(e, ts[k], env).task
    ensures ExecuteAll(Obliging(e), ss, env, log, HERE).log != ExecuteAll(Obliging(e), ts, env, log, HERE).log
    decreases |ts|
  {
    var a, b := Render(e, ss[0], env).task, Render(e, ts[0], env).task;
    assert PlainCalls([ts[0]]) && PlainCalls([ss[0]]);
    PlainCall(e, ss[0], env, log);
    PlainCall(e, ts[0], env, log);
    if a == b {
      assert ts[..k][0] == ts[0] && ts[1..][..k - 1] == ts[..k][1..];
      Diverge(e, ss[1..], ts[1..], env, log + [Event(b.value.action, env, HERE)], k - 1);
    } else {
      LogsPart(e, ss, ts, env, log);
    }
  }

  lemma LogsPart(e: Engine, ss: seq<Task>, ts: seq<Task>, env: Vars, log: Log)
    requires ss != [] && ts != [] && PlainCalls([ss[0]]) && PlainCalls([ts[0]])
    requires ss[0] == ts[0].(action := ss[0].action)
    requires Render(e, ss[0], env).task != Render(e, ts[0], env).task
    ensures ExecuteAll(Obliging(e), ss, env, log, HERE).log != ExecuteAll(Obliging(e), ts, env, log, HERE).log
  {
    var a, b := Render(e, ss[0], env).task, Render(e, ts[0], env).task;
    FirstLogged(e, ss, env, log);
    FirstLogged(e, ts, env, log);
    if a.Some? && b.Some? {
      assert a.value == b.value.(action := a.value.action);
    }
  }

  lemma FirstLogged(e: Engine, ts: seq<Task>, env: Vars, log: Log)
    requires ts != [] && PlainCalls([ts[0]])
    ensures var r, l := Render(e, ts[0], env).task, ExecuteAll(Obliging(e), ts, env, log, HERE).log;
            if r.None? then l == log else |l| > |log| && l[|log|] == Event(r.value.action, env, HERE)
  {
    PlainCall(e, ts[0], env, log);
    var r := Render(e, ts[0], env).task;
    if r.Some? {
      var x := Event(r.value.action, env, HERE);
      ExecuteAllGrows(Obliging(e), ts[1..], env, log + [x], HERE);
      assert (log + [x])[|log|] == x;
    }
  }

  // ---------------------------------------------------------------- two plays, and all of them

  /**
   The whole role having rendered with `first`, each task that `now` reaches, by rendering those
   before it, renders with `now` as if it had not.
   */
  ghost predicate PairAbsorbs(e: Engine, ts: seq<Task>, first: Vars, now: Vars) {
    RendersIn(e, ts, first) ==>
      forall k :: 0 <= k < |ts| && RendersIn(e, ts[..k], now) ==> AbsorbsAt(e, ts[k], first, now)
  }

  predicate AgreesOn(ts: seq<Task>, st: Setting, plays: seq<Play>, log: Log) {
    StoredPlaybook(st, Only(ts), plays, log) == RunPlaybook(st, Only(ts), plays, log)
  }

  /** Two plays: the second finds what the first left, or, by values, the role as it was. */
  lemma TwoBareRuns(e: Engine, ts: seq<Task>, first: Vars, now: Vars)
    ensures var s := ExecuteAll(Obliging(e), ts, first, [], HERE);
            var left := AllAfter(Obliging(e), ts, first, [], HERE);
            var (a, b) := (ExecuteAll(Obliging(e), left, now, s.log, HERE),
                ExecuteAll(Obliging(e), ts, now, s.log, HERE));
            AgreesOn(ts, Bare(e), [PlayWith(first), PlayWith(now)], []) <==> !s.ok || (a.log == b.log && a.ok == b.ok)
  {
    var s := ExecuteAll(Obliging(e), ts, first, [], HERE);
    var left := AllAfter(Obliging(e), ts, first, [], HERE);
    assert [PlayWith(first), PlayWith(now)] == [PlayWith(first)] + [PlayWith(now)];
    assert [PlayWith(now)] == [PlayWith(now)] + [];
    BareRun(e, ts, first, [PlayWith(now)], []);
    BareRun(e, ts, now, [], s.log);
    BareRun(e, left, now, [], s.log);
  }

  /** Two plays that apply a role of plain calls agree with the value run exactly when their variables absorb. */
  lemma TwoPlaysAgreeExactly(e: Engine, ts: seq<Task>, first: Vars, now: Vars)
    requires PlainCalls(ts)
    ensures AgreesOn(ts, Bare(e), [PlayWith(first), PlayWith(now)], []) <==> PairAbsorbs(e, ts, first, now)
  {
    var w := Obliging(e);
    TwoBareRuns(e, ts, first, now);
    PlainMet(w, ts, first, [], HERE);
    if RendersIn(e, ts, first) {
      PlainRun(e, ts, first, []);
      SecondPlay(e, ts, first, now, ExecuteAll(w, ts, first, [], HERE).log);
      FirstRun(w, ts, first, [], HERE);
      AllTheSame(w, ts, MetBy(w, ts, first, [], HERE), first);
    }
  }

  lemma AllTheSame(w: World, ts: seq<Task>, envs: seq<Vars>, first: Vars)
    requires |envs| == |ts| && forall k :: 0 <= k < |envs| ==> envs[k] == first
    ensures envs == Same(ts, first)
  {}

  function Same(ts: seq<Task>, first: Vars): (r: seq<Vars>)
    ensures |r| == |ts| && forall k :: 0 <= k < |r| ==> r[k] == first
  {
    seq(|ts|, k => first)
  }

  /** The role as one environment has left it runs in another as the role itself, exactly when the two absorb. */
  lemma SecondPlay(e: Engine, ts: seq<Task>, first: Vars, now: Vars, log: Log)
    requires PlainCalls(ts) && RendersIn(e, ts, first)
    ensures var w := Obliging(e);
            var a, b := ExecuteAll(w, LeftAll(w, ts, Same(ts, first)), now, log, HERE),
                ExecuteAll(w, ts, now, log, HERE);
            a.log == b.log && a.ok == b.ok <==> PairAbsorbs(e, ts, first, now)
  {
    var w, before := Obliging(e), Same(ts, first);
    if PairAbsorbs(e, ts, first, now) {
      PlainMet(w, ts, now, log, HERE);
      LeftAllRunAlike(w, ts, before, now, log, HERE);
    } else {
      var k :| 0 <= k < |ts| && RendersIn(e, ts[..k], now) && !AbsorbsAt(e, ts[k], first, now);
      LeftAreCalls(w, ts, before);
      Diverge(e, LeftAll(w, ts, before), ts, now, log, k);
    }
  }

  lemma LeftAreCalls(w: World, ts: seq<Task>, envs: seq<Vars>)
    requires PlainCalls(ts) && |envs| == |ts|
    ensures var ss := LeftAll(w, ts, envs);
            forall j :: 0 <= j < |ts| ==> ss[j].action.Module? && ss[j] == ts[j].(action := ss[j].action)
  {}

  /**
   For a role of any number of plain calls: every run over shared contents is right, in every world,
   for every playbook, if and only if every two environments absorb.
   */
  lemma RefinementIsExact(e: Engine, ts: seq<Task>)
    requires PlainCalls(ts)
    ensures (forall first: Vars, now: Vars :: PairAbsorbs(e, ts, first, now)) <==>
            forall st: Setting, plays: seq<Play>, log: Log :: st.world.engine == e ==> AgreesOn(ts, st, plays, log)
  {
    if forall first: Vars, now: Vars :: PairAbsorbs(e, ts, first, now) {
      forall st: Setting, plays: seq<Play>, log: Log | st.world.engine == e ensures AgreesOn(ts, st, plays, log) {
        PairsAgree(e, ts, st, plays, log);
      }
    } else {
      var plays := SomePairDiffers(e, ts);
      assert Bare(e).world.engine == e;
    }
  }

  lemma SomePairDiffers(e: Engine, ts: seq<Task>) returns (plays: seq<Play>)
    requires PlainCalls(ts) && exists first: Vars, now: Vars :: !PairAbsorbs(e, ts, first, now)
    ensures !AgreesOn(ts, Bare(e), plays, [])
  {
    var first: Vars, now: Vars :| !PairAbsorbs(e, ts, first, now);
    TwoPlaysAgreeExactly(e, ts, first, now);
    plays := [PlayWith(first), PlayWith(now)];
  }

  /** Every application recorded met one environment, in which the whole role rendered. */
  ghost predicate PlainlyMet(e: Engine, ts: seq<Task>, met: Met) {
    "role" in met ==> exists first :: MetOnly(e, ts, met["role"], first)
  }

  ghost predicate MetOnly(e: Engine, ts: seq<Task>, envs: seq<Vars>, first: Vars) {
    RendersIn(e, ts, first) && forall k :: 0 <= k < |envs| ==> envs[k] == first
  }

  lemma PlainStep(st: Setting, ts: seq<Task>, env: Vars, log: Log, met: Met)
    requires PlainCalls(ts) && PlainlyMet(st.world.engine, ts, met)
    requires forall first: Vars, now: Vars :: PairAbsorbs(st.world.engine, ts, first, now)
    ensures var role, e := Only(ts)["role"], st.world.engine;
            var now := RoleMet(st, role, "role", env, log);
            && ("role" in met ==> AbsorbsAfter(e, ts, met["role"], now))
            && (RunRole(st.world, role, env, log, st.world.join(st.rolesDir, "role")).ok ==>
                  PlainlyMet(e, ts, met["role" := now]))
  {
    var role, e := Only(ts)["role"], st.world.engine;
    var here := RoleEnv(role, env);
    var at := Place(st.world.join(st.rolesDir, "role"), true);
    PlainMet(st.world, ts, here, log, at);
    var now := RoleMet(st, role, "role", env, log);
    assert role.tasks == ts && now == MetBy(st.world, ts, here, log, at);
    if "role" in met {
      var first :| MetOnly(e, ts, met["role"], first);
      assert PairAbsorbs(e, ts, first, here);
    }
    if RunRole(st.world, role, env, log, st.world.join(st.rolesDir, "role")).ok {
      assert met["role" := now]["role"] == now;
      assert MetOnly(e, ts, met["role" := now]["role"], here);
    }
  }

  lemma {:induction false} PlainRolesAbsorb(st: Setting, ts: seq<Task>, names: seq<string>, env: Vars, log: Log,
                                            met: Met)
    requires PlainCalls(ts) && PlainlyMet(st.world.engine, ts, met)
    requires forall first: Vars, now: Vars :: PairAbsorbs(st.world.engine, ts, first, now)
    ensures RolesAbsorb(st, Only(ts), names, env, log, met)
    ensures RunRoles(st, Only(ts), names, env, log).ok ==>
              PlainlyMet(st.world.engine, ts, MetAfter(st, Only(ts), names, env, log, met))
    decreases |names|
  {
    if names != [] && names[0] in Only(ts) {
      PlainStep(st, ts, env, log, met);
      var s := RunRole(st.world, Only(ts)["role"], env, log, st.world.join(st.rolesDir, "role"));
      if s.ok {
        var now := RoleMet(st, Only(ts)["role"], "role", env, log);
        PlainRolesAbsorb(st, ts, names[1..], s.env, s.log, met["role" := now]);
      }
    }
  }

  lemma {:induction false} PlainPlaysAbsorb(st: Setting, ts: seq<Task>, plays: seq<Play>, log: Log, met: Met)
    requires PlainCalls(ts) && PlainlyMet(st.world.engine, ts, met)
    requires forall first: Vars, now: Vars :: PairAbsorbs(st.world.engine, ts, first, now)
    ensures PlaybookAbsorbs(st, Only(ts), plays, log, met)
    decreases |plays|
  {
    if plays != [] {
      var play, s := plays[0], RunPlay(st, Only(ts), plays[0], log);
      if !Matches(st, play.hosts) {
        PlainPlaysAbsorb(st, ts, plays[1..], log, met);
      } else {
        var env := LoadVars(st, play.varsFiles, st.inventory + play.vars);
        if env.Some? {
          PlainRolesAbsorb(st, ts, play.roles, env.value, log, met);
          if s.ok { PlainPlaysAbsorb(st, ts, plays[1..], s.log, PlayMet(st, Only(ts), play, log, met)); }
        }
      }
    }
  }

  lemma PairsAgree(e: Engine, ts: seq<Task>, st: Setting, plays: seq<Play>, log: Log)
    requires PlainCalls(ts) && st.world.engine == e
    requires forall first: Vars, now: Vars :: PairAbsorbs(e, ts, first, now)
    ensures AgreesOn(ts, st, plays, log)
  {
    PlainPlaysAbsorb(st, ts, plays, log, map[]);
    Refinement(st, Only(ts), plays, log);
  }

  /** Two plays that give `v` different values apply a role whose task says "{{ v }}": the second sees the first's. */
  lemma AppliedTwiceDiffers(e: Engine, one: Vars, two: Vars, t: Task)
    requires one == map["v" := Text("1")] && two == map["v" := Text("2")]
    requires t == Task("", "", NoLoop, Module("debug", [Str("{{ v }}")]), "")
    requires e.text("{{ v }}", one) == Some("1") && e.text("{{ v }}", two) == Some("2") && e.text("1", two) == Some("1")
    ensures !AgreesOn([t], Bare(e), [PlayWith(one), PlayWith(two)], [])
  {
    OneString(e, "{{ v }}", one);
    OneString(e, "{{ v }}", two);
    OneString(e, "1", two);
    assert Render(e, t, one).left == Module("debug", [Str("1")]);
    assert Render(e, t, two).task.value.action == Module("debug", [Str("2")]);
    assert !AbsorbsAt(e, t, one, two);
    assert [t][0] == t && [t][..0] == [] && RendersIn(e, [t], one) && RendersIn(e, [t][..0], two);
    assert !PairAbsorbs(e, [t], one, two);
    TwoPlaysAgreeExactly(e, [t], one, two);
  }

  lemma OneString(e: Engine, s: string, env: Vars)
    requires e.text(s, env).Some? && s != ""
    ensures RenderFields(e, [Str(s)], env) == ([Str(e.text(s, env).value)], true)
  {
    var f := Str(s);
    assert RenderField(e, f, env) == (Str(e.text(s, env).value), true);
    assert [f][1..] == [] && RenderFields(e, [], env) == ([], true);
    assert [Str(e.text(s, env).value)] + [] == [Str(e.text(s, env).value)];
  }
}
