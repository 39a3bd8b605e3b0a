/** A depth that suffices is as good as any larger one for runs over altered roles too. */
module StoredDepth {
  import opened Variables
  import opened Tasks
  import opened Nesting
  import opened Stored

  lemma {:induction false} AllAfterDeeper(w: World, ts: seq<Task>, env: Vars, log: Log, at: Place, m: nat)
    requires w.depth <= m && Overflow !in ExecuteAll(w, ts, env, log, at).log
    ensures AllAfter(Deeper(w, m), ts, env, log, at) == AllAfter(w, ts, env, log, at)
    decreases |ts|
  {
    if ts != [] {
      var s := Execute(w, ts[0], env, log, at);
      if s.ok {
        ExecuteAllGrows(w, ts[1..], s.env, s.log, at);
        NoneBefore(s.log, ExecuteAll(w, ts, env, log, at).log);
        AllAfterDeeper(w, ts[1..], s.env, s.log, at, m);
      }
      ExecuteDeeper(w, ts[0], env, log, at, m);
    }
  }

  lemma {:induction false} StoredRolesGrow(st: Setting, roles: map<string, Role>, names: seq<string>, env: Vars,
                                           log: Log)
    ensures log <= StoredRoles(st, roles, names, env, log).0.log
    decreases |names|
  {
    if names != [] && names[0] in roles {
      var role, dir := roles[names[0]], st.world.join(st.rolesDir, names[0]);
      ExecuteAllGrows(st.world, role.tasks, RoleEnv(role, env), log, Place(dir, true));
      var s := RunRole(st.world, role, env, log, dir);
      StoredRolesGrow(st, roles[names[0] := RoleAfter(st.world, role, env, log, dir)], names[1..], s.env, s.log);
    }
  }

  lemma StoredPlayGrows(st: Setting, roles: map<string, Role>, play: Play, log: Log)
    ensures log <= StoredPlay(st, roles, play, log).0.log
  {
    var env := LoadVars(st, play.varsFiles, st.inventory + play.vars);
    if env.Some? {
      StoredRolesGrow(st, roles, play.roles, env.value, log);
      var s := StoredRoles(st, roles, play.roles, env.value, log).0;
      ExecuteAllGrows(st.world, play.tasks, s.env, s.log, Place(st.playbookDir, false));
    }
  }

  lemma {:induction false} StoredPlaybookGrows(st: Setting, roles: map<string, Role>, plays: seq<Play>, log: Log)
    ensures log <= StoredPlaybook(st, roles, plays, log).0
    decreases |plays|
  {
    if plays != [] {
      if Matches(st, plays[0].hosts) {
        StoredPlayGrows(st, roles, plays[0], log);
        var (s, rest) := StoredPlay(st, roles, plays[0], log);
        StoredPlaybookGrows(st, rest, plays[1..], s.log);
      } else {
        StoredPlaybookGrows(st, roles, plays[1..], log);
      }
    }
  }

  lemma {:induction false} StoredRolesDeeper(st: Setting, roles: map<string, Role>, names: seq<string>, env: Vars,
                                             log: Log, m: nat)
    requires st.world.depth <= m && Overflow !in StoredRoles(st, roles, names, env, log).0.log
    ensures StoredRoles(DeeperSetting(st, m), roles, names, env, log) == StoredRoles(st, roles, names, env, log)
    decreases |names|
  {
    if names != [] && names[0] in roles {
      var role, dir := roles[names[0]], st.world.join(st.rolesDir, names[0]);
      var s := RunRole(st.world, role, env, log, dir);
      var rest := roles[names[0] := RoleAfter(st.world, role, env, log, dir)];
      if s.ok {
        StoredRolesGrow(st, rest, names[1..], s.env, s.log);
        NoneBefore(s.log, StoredRoles(st, roles, names, env, log).0.log);
        StoredRolesDeeper(st, rest, names[1..], s.env, s.log, m);
      }
      ExecuteAllDeeper(st.world, role.tasks, RoleEnv(role, env), log, Place(dir, true), m);
      AllAfterDeeper(st.world, role.tasks, RoleEnv(role, env), log, Place(dir, true), m);
    }
  }

  lemma StoredPlayDeeper(st: Setting, roles: map<string, Role>, play: Play, log: Log, m: nat)
    requires st.world.depth <= m && Overflow !in StoredPlay(st, roles, play, log).0.log
    ensures StoredPlay(DeeperSetting(st, m), roles, play, log) == StoredPlay(st, roles, play, log)
  {
    LoadVarsDeeper(st, play.varsFiles, st.inventory + play.vars, m);
    var env := LoadVars(st, play.varsFiles, st.inventory + play.vars);
    if env.Some? {
      var s := StoredRoles(st, roles, play.roles, env.value, log).0;
      if s.ok {
        ExecuteAllGrows(st.world, play.tasks, s.env, s.log, Place(st.playbookDir, false));
        NoneBefore(s.log, StoredPlay(st, roles, play, log).0.log);
        ExecuteAllDeeper(st.world, play.tasks, s.env, s.log, Place(st.playbookDir, false), m);
      }
      StoredRolesDeeper(st, roles, play.roles, env.value, log, m);
    }
  }

  /** What a run over shared contents does without using up the depth, it does with any larger one. */
  lemma {:induction false} LargerDepthIsSameStored(st: Setting, roles: map<string, Role>, plays: seq<Play>, log: Log,
      m: nat)
    requires st.world.depth <= m && Overflow !in StoredPlaybook(st, roles, plays, log).0
    ensures StoredPlaybook(DeeperSetting(st, m), roles, plays, log) == StoredPlaybook(st, roles, plays, log)
    decreases |plays|
  {
    if plays != [] {
      if Matches(st, plays[0].hosts) {
        var (s, rest) := StoredPlay(st, roles, plays[0], log);
        if s.ok {
          StoredPlaybookGrows(st, rest, plays[1..], s.log);
          NoneBefore(s.log, StoredPlaybook(st, roles, plays, log).0);
          LargerDepthIsSameStored(st, rest, plays[1..], s.log, m);
        }
        StoredPlayDeeper(st, roles, plays[0], log, m);
      } else {
        LargerDepthIsSameStored(st, roles, plays[1..], log, m);
      }
    }
  }
}
