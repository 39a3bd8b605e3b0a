/** Roles, plays and playbooks as the program runs them, over maps and task contents reached by reference. */
module Playbook {
  import opened Variables
  import opened Tasks
  import opened Stored
  import opened Executer

  // ---------------------------------------------------------------- lists of tasks

  ghost function Contents(tasks: seq<ProtoTask>): set<Content> {
    set k | 0 <= k < |tasks| :: tasks[k].content
  }

  /** No two tasks share a content. */
  ghost predicate Separate(tasks: seq<ProtoTask>) {
    forall i, j :: 0 <= i < j < |tasks| ==> tasks[i].content != tasks[j].content
  }

  /** The tasks are now `ts`. */
  ghost predicate Holds(tasks: seq<ProtoTask>, ts: seq<Task>)
    reads Contents(tasks)
  {
    |tasks| == |ts| && forall k :: 0 <= k < |tasks| ==> tasks[k].Value() == ts[k]
  }

  /** Partway through the tasks: those before `i` are as they will be left, the others as they were. */
  ghost predicate Partway(tasks: seq<ProtoTask>, ts: seq<Task>, after: seq<Task>, i: nat)
    reads Contents(tasks)
  {
    && |tasks| == |ts| == |after|
    && forall k :: 0 <= k < |tasks| ==> tasks[k].Value() == if k < i then after[k] else ts[k]
  }

  /** The task loop of a play or of a role. */
  method ExecuteTasks(w: World, tasks: seq<ProtoTask>, vars: VarMap, rec: Recorder, at: Place, ghost ts: seq<Task>)
    returns (ok: bool)
    requires Separate(tasks) && Holds(tasks, ts)
    modifies Contents(tasks), vars, rec
    ensures State(vars.m, rec.log, ok) == ExecuteAll(w, ts, old(vars.m), old(rec.log), at)
    ensures Holds(tasks, AllAfter(w, ts, old(vars.m), old(rec.log), at))
  {
    ghost var after := AllAfter(w, ts, vars.m, rec.log, at);
    var i := 0;
    assert ts[0..] == ts && after[0..] == after;
    while i < |tasks|
      invariant 0 <= i <= |tasks| && Partway(tasks, ts, after, i)
      invariant after[i..] == AllAfter(w, ts[i..], vars.m, rec.log, at)
      invariant ExecuteAll(w, ts, old(vars.m), old(rec.log), at) == ExecuteAll(w, ts[i..], vars.m, rec.log, at)
    {
      AllAfterStep(w, ts, after, i, vars.m, rec.log, at);
      ok := ExecuteOne(w, tasks, i, vars, rec, at, ts, after);
      if !ok { return false; }
      i := i + 1;
    }
    return true;
  }

  method ExecuteOne(w: World, tasks: seq<ProtoTask>, i: nat, vars: VarMap, rec: Recorder, at: Place,
                    ghost ts: seq<Task>, ghost after: seq<Task>)
    returns (ok: bool)
    requires Separate(tasks) && i < |tasks|
    requires Partway(tasks, ts, after, i) && after[i] == After(w, ts[i], vars.m)
    modifies tasks[i].content, vars, rec
    ensures State(vars.m, rec.log, ok) == Execute(w, ts[i], old(vars.m), old(rec.log), at)
    ensures Partway(tasks, ts, after, i + 1)
  {
    var task := FromProto(tasks[i]);
    assert Meaning(task, task.content.action) == ts[i];
    ok := ExecuteTask(w, task, vars, rec, at);
    assert tasks[i].Value() == after[i];
  }

  lemma AllAfterStep(w: World, ts: seq<Task>, after: seq<Task>, i: nat, env: Vars, log: Log, at: Place)
    requires i < |ts| == |after|
    requires after[i..] == AllAfter(w, ts[i..], env, log, at)
    ensures after[i] == After(w, ts[i], env)
    ensures var s := Execute(w, ts[i], env, log, at);
            && after[i + 1..] == (if s.ok then AllAfter(w, ts[i + 1..], s.env, s.log, at) else ts[i + 1..])
            && ExecuteAll(w, ts[i..], env, log, at) ==
               if s.ok then ExecuteAll(w, ts[i + 1..], s.env, s.log, at) else s
  {
    assert ts[i..][0] == ts[i] && ts[i..][1..] == ts[i + 1..];
    assert after[i] == after[i..][0] && after[i + 1..] == after[i..][1..];
  }

  // ---------------------------------------------------------------- roles

  /** A role as discovered on disk: its variables and its tasks are shared by every application. */
  datatype ProtoRole = ProtoRole(defaults: VarMap, vars: VarMap, tasks: seq<ProtoTask>)

  ghost function Reach(role: ProtoRole): set<object> {
    {role.defaults, role.vars} + Contents(role.tasks)
  }

  /** The role is now `r`. */
  ghost predicate HoldsRole(role: ProtoRole, r: Role)
    reads Reach(role)
  {
    role.defaults.m == r.defaults && role.vars.m == r.vars && Holds(role.tasks, r.tasks)
  }

  /** The variables a role runs with: a map of its own. */
  method NewRoleVars(role: ProtoRole, vars: VarMap) returns (roleVars: VarMap)
    ensures fresh(roleVars) && roleVars.m == role.defaults.m + vars.m + role.vars.m
  {
    roleVars := new VarMap(map[]);
    roleVars.Merge(role.defaults.m);
    roleVars.Merge(vars.m);
    roleVars.Merge(role.vars.m);
    assert map[] + role.defaults.m == role.defaults.m;
  }

  /** `Role.Apply`, where `vars` is the map of the play. */
  method ApplyRole(w: World, role: ProtoRole, vars: VarMap, rec: Recorder, parent: string, ghost r: Role)
    returns (ok: bool)
    requires Separate(role.tasks) && HoldsRole(role, r)
    requires vars != role.defaults && vars != role.vars
    modifies Contents(role.tasks), vars, rec
    ensures State(vars.m, rec.log, ok) == RunRole(w, r, old(vars.m), old(rec.log), parent)
    ensures HoldsRole(role, RoleAfter(w, r, old(vars.m), old(rec.log), parent))
  {
    var roleVars := NewRoleVars(role, vars);
    ok := ExecuteTasks(w, role.tasks, roleVars, rec, Place(parent, true), r.tasks);
    if ok {
      vars.Merge(role.vars.m);
    }
  }

  ghost function ContentsOf(roles: map<string, ProtoRole>): set<Content> {
    set n, k | n in roles && 0 <= k < |roles[n].tasks| :: roles[n].tasks[k].content
  }

  ghost function ReachOf(roles: map<string, ProtoRole>): set<object> {
    ContentsOf(roles) + (set n | n in roles :: roles[n].defaults) + (set n | n in roles :: roles[n].vars)
  }

  ghost predicate SeparateRoles(roles: map<string, ProtoRole>) {
    && (forall n :: n in roles ==> Separate(roles[n].tasks))
    && (forall n, m :: n in roles && m in roles && n != m ==> Contents(roles[n].tasks) !! Contents(roles[m].tasks))
  }

  ghost predicate HoldsRoles(roles: map<string, ProtoRole>, rs: map<string, Role>)
    reads ReachOf(roles)
  {
    roles.Keys == rs.Keys && forall n :: n in roles ==> HoldsRole(roles[n], rs[n])
  }

  lemma OthersApart(roles: map<string, ProtoRole>, name: string)
    requires SeparateRoles(roles) && name in roles
    ensures ContentsOf(roles - {name}) !! Contents(roles[name].tasks)
    ensures ReachOf(roles - {name}) <= ReachOf(roles)
  {
    forall n, k | n in roles && n != name && 0 <= k < |roles[n].tasks|
      ensures roles[n].tasks[k].content !in Contents(roles[name].tasks)
    {
      assert roles[n].tasks[k].content in Contents(roles[n].tasks);
    }
  }

  lemma HoldsApart(roles: map<string, ProtoRole>, rs: map<string, Role>, name: string)
    requires name in roles
    ensures HoldsRoles(roles, rs) <==>
        name in rs && HoldsRoles(roles - {name}, rs - {name}) && HoldsRole(roles[name], rs[name])
  {
    if HoldsRoles(roles - {name}, rs - {name}) && name in rs {
      assert rs.Keys == (rs - {name}).Keys + {name};
      forall n | n in roles && n != name ensures HoldsRole(roles[n], rs[n]) {
        assert n in roles - {name};
      }
    }
  }

  /** Applying a role leaves others alone that share no content with it. */
  method ApplyBeside(w: World, role: ProtoRole, vars: VarMap, rec: Recorder, parent: string, ghost r: Role,
                     ghost others: map<string, ProtoRole>, ghost rs: map<string, Role>)
    returns (ok: bool)
    requires Separate(role.tasks) && HoldsRole(role, r) && HoldsRoles(others, rs)
    requires vars != role.defaults && vars != role.vars && vars !in ReachOf(others)
        && ContentsOf(others) !! Contents(role.tasks)
    modifies Contents(role.tasks), vars, rec
    ensures State(vars.m, rec.log, ok) == RunRole(w, r, old(vars.m), old(rec.log), parent)
    ensures HoldsRole(role, RoleAfter(w, r, old(vars.m), old(rec.log), parent))
    ensures HoldsRoles(others, rs)
  {
    ok := ApplyRole(w, role, vars, rec, parent, r);
  }

  /** Applying the role called `name` alters its own tasks and no other role. */
  method ApplyNamed(st: Setting, roles: map<string, ProtoRole>, name: string, vars: VarMap, rec: Recorder,
                    ghost rs: map<string, Role>)
    returns (ok: bool)
    requires SeparateRoles(roles) && HoldsRoles(roles, rs) && vars !in ReachOf(roles) && name in roles
    modifies Contents(roles[name].tasks), vars, rec
    ensures var parent := st.world.join(st.rolesDir, name);
            && State(vars.m, rec.log, ok) == RunRole(st.world, rs[name], old(vars.m), old(rec.log), parent)
            && HoldsRoles(roles, rs[name := RoleAfter(st.world, rs[name], old(vars.m), old(rec.log), parent)])
  {
    HoldsApart(roles, rs, name);
    OthersApart(roles, name);
    var parent := st.world.join(st.rolesDir, name);
    ghost var after := rs[name := RoleAfter(st.world, rs[name], vars.m, rec.log, parent)];
    assert after - {name} == rs - {name};
    ok := ApplyBeside(st.world, roles[name], vars, rec, parent, rs[name], roles - {name}, rs - {name});
    HoldsApart(roles, after, name);
  }

  /** The role loop of `playbookApply`. */
  method ApplyRoles(st: Setting, roles: map<string, ProtoRole>, names: seq<string>, vars: VarMap, rec: Recorder,
                    ghost rs: map<string, Role>)
    returns (ok: bool, ghost after: map<string, Role>)
    requires SeparateRoles(roles) && HoldsRoles(roles, rs) && vars !in ReachOf(roles)
    modifies ContentsOf(roles), vars, rec
    ensures (State(vars.m, rec.log, ok), after) == StoredRoles(st, rs, names, old(vars.m), old(rec.log))
    ensures HoldsRoles(roles, after)
  {
    after := rs;
    var i := 0;
    assert names[0..] == names;
    while i < |names|
      invariant 0 <= i <= |names|
      invariant HoldsRoles(roles, after)
      invariant StoredRoles(st, rs, names, old(vars.m), old(rec.log))
          == StoredRoles(st, after, names[i..], vars.m, rec.log)
    {
      var name := names[i];
      assert names[i..][0] == name && names[i..][1..] == names[i + 1..];
      if name !in roles { return false, after; }
      var parent := st.world.join(st.rolesDir, name);
      ghost var r := RoleAfter(st.world, after[name], vars.m, rec.log, parent);
      assert Contents(roles[name].tasks) <= ContentsOf(roles);
      ok := ApplyNamed(st, roles, name, vars, rec, after);
      after := after[name := r];
      if !ok { return false, after; }
      i := i + 1;
    }
    return true, after;
  }

  // ---------------------------------------------------------------- plays and playbooks

  datatype ProtoPlay = ProtoPlay(hosts: string, roles: seq<string>, tasks: seq<ProtoTask>, vars: VarMap,
                                 varsFiles: seq<string>)

  ghost function ReachOfPlay(play: ProtoPlay): set<object> {
    {play.vars} + Contents(play.tasks)
  }

  ghost predicate HoldsPlay(play: ProtoPlay, p: Play)
    reads ReachOfPlay(play)
  {
    p == Play(play.hosts, play.roles, p.tasks, play.vars.m, play.varsFiles) && Holds(play.tasks, p.tasks)
  }

  /** The loop over `vars_files`. */
  method LoadVarsFiles(st: Setting, files: seq<string>, vars: VarMap) returns (ok: bool)
    modifies vars
    ensures match LoadVars(st, files, old(vars.m)) case Some(env) => ok && vars.m == env case None => !ok
  {
    var i := 0;
    assert files[0..] == files;
    while i < |files|
      invariant 0 <= i <= |files|
      invariant LoadVars(st, files, old(vars.m)) == LoadVars(st, files[i..], vars.m)
    {
      assert files[i..][0] == files[i] && files[i..][1..] == files[i + 1..];
      var fileVars := st.loadVars(st.world.join(st.playbookDir, files[i]));
      if fileVars.None? { return false; }
      vars.Merge(fileVars.value);
      i := i + 1;
    }
    return true;
  }

  /** The variables a play starts with: a map of its own, filled from the inventory, the play, and its files. */
  method NewPlayVars(st: Setting, play: ProtoPlay, inventory: VarMap) returns (ok: bool, playVars: VarMap)
    ensures fresh(playVars)
    ensures match LoadVars(st, play.varsFiles, inventory.m + play.vars.m)
            case Some(env) => ok && playVars.m == env
            case None => !ok
  {
    playVars := new VarMap(map[]);
    playVars.Merge(inventory.m);
    playVars.Merge(play.vars.m);
    assert map[] + inventory.m == inventory.m;
    ok := LoadVarsFiles(st, play.varsFiles, playVars);
  }

  /** The roles and then the tasks of a play, all on its one map. */
  method RunInPlay(st: Setting, roles: map<string, ProtoRole>, play: ProtoPlay, vars: VarMap, rec: Recorder,
                   ghost rs: map<string, Role>, ghost ts: seq<Task>)
    returns (ok: bool, ghost after: map<string, Role>)
    requires SeparateRoles(roles) && HoldsRoles(roles, rs) && vars !in ReachOf(roles)
    requires Separate(play.tasks) && Holds(play.tasks, ts) && Contents(play.tasks) !! ContentsOf(roles)
    modifies ContentsOf(roles), Contents(play.tasks), vars, rec
    ensures var (s, rest) := StoredRoles(st, rs, play.roles, old(vars.m), old(rec.log));
            && after == rest
            && State(vars.m, rec.log, ok) ==
               if s.ok then ExecuteAll(st.world, ts, s.env, s.log, Place(st.playbookDir, false)) else s
    ensures HoldsRoles(roles, after)
  {
    ok, after := ApplyRoles(st, roles, play.roles, vars, rec, rs);
    if ok {
      ok := RunTasks(st, roles, play, vars, rec, after, ts);
    }
  }

  method RunTasks(st: Setting, roles: map<string, ProtoRole>, play: ProtoPlay, vars: VarMap, rec: Recorder,
                  ghost rs: map<string, Role>, ghost ts: seq<Task>)
    returns (ok: bool)
    requires HoldsRoles(roles, rs) && vars !in ReachOf(roles)
    requires Separate(play.tasks) && Holds(play.tasks, ts) && Contents(play.tasks) !! ContentsOf(roles)
    modifies Contents(play.tasks), vars, rec
    ensures State(vars.m, rec.log, ok)
        == ExecuteAll(st.world, ts, old(vars.m), old(rec.log), Place(st.playbookDir, false))
    ensures HoldsRoles(roles, rs)
  {
    assert forall o :: o in ReachOf(roles) ==> o !in Contents(play.tasks) && o != vars && o != rec;
    ok := ExecuteTasks(st.world, play.tasks, vars, rec, Place(st.playbookDir, false), ts);
  }

  /** One matching play of `playbookApply`: a map of its own, filled in order, then the roles, then the tasks. */
  method ApplyPlay(st: Setting, roles: map<string, ProtoRole>, play: ProtoPlay, inventory: VarMap, rec: Recorder,
                   ghost rs: map<string, Role>, ghost p: Play)
    returns (ok: bool, ghost after: map<string, Role>)
    requires SeparateRoles(roles) && HoldsRoles(roles, rs)
    requires Separate(play.tasks) && HoldsPlay(play, p) && Contents(play.tasks) !! ContentsOf(roles)
    requires inventory.m == st.inventory
    modifies ContentsOf(roles), Contents(play.tasks), rec
    ensures (rec.log, ok) == (StoredPlay(st, rs, p, old(rec.log)).0.log, StoredPlay(st, rs, p, old(rec.log)).0.ok)
    ensures after == StoredPlay(st, rs, p, old(rec.log)).1 && HoldsRoles(roles, after)
  {
    after := rs;
    var playVars: VarMap;
    ok, playVars := NewPlayVars(st, play, inventory);
    if !ok { return; }
    ok, after := RunInPlay(st, roles, play, playVars, rec, rs, p.tasks);
  }

  ghost function ContentsOfPlays(plays: seq<ProtoPlay>): set<Content> {
    set i, k | 0 <= i < |plays| && 0 <= k < |plays[i].tasks| :: plays[i].tasks[k].content
  }

  ghost predicate SeparatePlays(plays: seq<ProtoPlay>) {
    && (forall i :: 0 <= i < |plays| ==> Separate(plays[i].tasks))
    && (forall i, j :: 0 <= i < j < |plays| ==> Contents(plays[i].tasks) !! Contents(plays[j].tasks))
  }

  /** The play loop of `playbookApply`: every call it makes, in order, and whether it succeeds. */
  method ApplyPlays(st: Setting, roles: map<string, ProtoRole>, plays: seq<ProtoPlay>, inventory: VarMap,
                    rec: Recorder, ghost rs: map<string, Role>, ghost ps: seq<Play>)
    returns (ok: bool)
    requires SeparateRoles(roles) && HoldsRoles(roles, rs)
    requires SeparatePlays(plays) && ContentsOfPlays(plays) !! ContentsOf(roles)
    requires |plays| == |ps| && forall i :: 0 <= i < |plays| ==> HoldsPlay(plays[i], ps[i])
    requires inventory.m == st.inventory
    modifies ContentsOf(roles), ContentsOfPlays(plays), rec
    ensures (rec.log, ok) == StoredPlaybook(st, rs, ps, old(rec.log))
  {
    ghost var now := rs;
    var i := 0;
    assert ps[0..] == ps;
    while i < |plays|
      invariant 0 <= i <= |plays|
      invariant HoldsRoles(roles, now)
      invariant forall j :: i <= j < |plays| ==> HoldsPlay(plays[j], ps[j])
      invariant StoredPlaybook(st, rs, ps, old(rec.log)) == StoredPlaybook(st, now, ps[i..], rec.log)
    {
      assert ps[i..][0] == ps[i] && ps[i..][1..] == ps[i + 1..];
      if Matches(st, plays[i].hosts) {
        ok, now := ApplyPlayAt(st, roles, plays, i, inventory, rec, now, ps);
        if !ok { return false; }
      }
      i := i + 1;
    }
    return true;
  }

  /** One of the plays: the later ones stay as they were. */
  method ApplyPlayAt(st: Setting, roles: map<string, ProtoRole>, plays: seq<ProtoPlay>, i: nat, inventory: VarMap,
                     rec: Recorder, ghost rs: map<string, Role>, ghost ps: seq<Play>)
    returns (ok: bool, ghost after: map<string, Role>)
    requires SeparateRoles(roles) && HoldsRoles(roles, rs)
    requires SeparatePlays(plays) && ContentsOfPlays(plays) !! ContentsOf(roles)
    requires i < |plays| == |ps| && forall j :: i <= j < |plays| ==> HoldsPlay(plays[j], ps[j])
    requires inventory.m == st.inventory
    modifies ContentsOf(roles), ContentsOfPlays(plays), rec
    ensures (rec.log, ok)
        == (StoredPlay(st, rs, ps[i], old(rec.log)).0.log, StoredPlay(st, rs, ps[i], old(rec.log)).0.ok)
    ensures after == StoredPlay(st, rs, ps[i], old(rec.log)).1 && HoldsRoles(roles, after)
    ensures forall j :: i < j < |plays| ==> HoldsPlay(plays[j], ps[j])
    ensures inventory.m == st.inventory
  {
    assert Contents(plays[i].tasks) <= ContentsOfPlays(plays);
    ok, after := ApplyPlay(st, roles, plays[i], inventory, rec, rs, ps[i]);
    forall j | i < j < |plays| ensures HoldsPlay(plays[j], ps[j]) {
      assert old(HoldsPlay(plays[j], ps[j]));
      assert Contents(plays[i].tasks) !! Contents(plays[j].tasks);
      assert Contents(plays[j].tasks) <= ContentsOfPlays(plays);
    }
  }

  /** `playbookApply`, over a parsed playbook. */
  method PlaybookApply(st: Setting, roles: map<string, ProtoRole>, plays: seq<ProtoPlay>, inventory: VarMap,
                       rec: Recorder, ghost rs: map<string, Role>, ghost ps: seq<Play>)
    returns (ok: bool)
    requires SeparateRoles(roles) && HoldsRoles(roles, rs)
    requires SeparatePlays(plays) && ContentsOfPlays(plays) !! ContentsOf(roles)
    requires |plays| == |ps| && forall i :: 0 <= i < |plays| ==> HoldsPlay(plays[i], ps[i])
    requires inventory.m == st.inventory
    modifies ContentsOf(roles), ContentsOfPlays(plays), rec
    ensures (rec.log, ok) == StoredPlaybook(st, rs, ps, old(rec.log))
    ensures PlaybookAbsorbs(st, rs, ps, old(rec.log), map[]) ==>
        (rec.log, ok) == RunPlaybook(st, rs, ps, old(rec.log))
    ensures OnceOrAbsorbing(st.world.engine, rs, Applications(st, ps)) ==>
        (rec.log, ok) == RunPlaybook(st, rs, ps, old(rec.log))
  {
    if OnceOrAbsorbing(st.world.engine, rs, Applications(st, ps)) {
      OnceRefines(st, rs, ps, rec.log);
    }
    if PlaybookAbsorbs(st, rs, ps, rec.log, map[]) {
      Refinement(st, rs, ps, rec.log);
    }
    ok := ApplyPlays(st, roles, plays, inventory, rec, rs, ps);
  }
}
