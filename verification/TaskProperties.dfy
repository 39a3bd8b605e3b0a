/** What a loop does, and how far the variables of a role reach. */
module TaskProperties {
  import opened Prelude
  import opened Variables
  import opened Templates
  import opened Tasks

  // ---------------------------------------------------------------- running a list of tasks in pieces

  lemma {:induction false} ExecuteAllAppend(w: World, a: seq<Task>, b: seq<Task>, env: Vars, log: Log, at: Place)
    ensures var s := ExecuteAll(w, a, env, log, at);
            ExecuteAll(w, a + b, env, log, at) ==
            if s.ok then ExecuteAll(w, b, s.env, s.log, at) else s
  {
    if a == [] {
      assert a + b == b;
    } else {
      assert (a + b)[0] == a[0] && (a + b)[1..] == a[1..] + b;
      var s := Execute(w, a[0], env, log, at);
      if s.ok {
        ExecuteAllAppend(w, a[1..], b, s.env, s.log, at);
      }
    }
  }

  // ---------------------------------------------------------------- loops

  /** Iteration `i` of a loop, from the log it starts with. */
  function Iterate(w: World, t: Task, items: seq<Value>, i: nat, env: Vars, log: Log, at: Place): Ran
    requires i < |items|
  {
    Process(w, Iteration(t), env["item" := items[i]], log, at)
  }

  /** Each log is what the iteration after the one before leaves. */
  ghost predicate LogsChain(w: World, t: Task, items: seq<Value>, env: Vars, logs: seq<Log>, at: Place)
  {
    && 1 <= |logs| <= |items| + 1
    && forall i :: 0 <= i < |logs| - 1 ==> Iterate(w, t, items, i, env, logs[i], at).log == logs[i + 1]
  }

  ghost predicate ResultsMatch(w: World, t: Task, items: seq<Value>, env: Vars, logs: seq<Log>, rs: seq<Result>,
                               at: Place)
  {
    && |rs| <= |logs| && |rs| <= |items|
    && forall i :: 0 <= i < |rs| ==> Iterate(w, t, items, i, env, logs[i], at).result == Some(rs[i])
  }

  /** `logs` are the logs between the iterations that lead to the loop's end state `s` and results `rs`. */
  ghost predicate LoopTrace(w: World, t: Task, items: seq<Value>, env: Vars, logs: seq<Log>, s: State,
                            rs: seq<Result>, at: Place)
  {
    && LogsChain(w, t, items, env, logs, at)
    && ResultsMatch(w, t, items, env, logs, rs, at)
    && logs[|logs| - 1] == s.log
    && (s.ok ==> |rs| == |items| == |logs| - 1)
    && (!s.ok ==> |rs| == |logs| - 2 && Iterate(w, t, items, |rs|, env, logs[|rs|], at).result.None?)
    && s.env == if |logs| == 1 then env else env["item" := items[|logs| - 2]]
  }

  /** The results so far are only ever added to. */
  lemma {:induction false} RunLoopAccumulates(w: World, t: Task, items: seq<Value>, done: seq<Result>, env: Vars,
                                              log: Log, at: Place)
    ensures var (s, rs) := RunLoop(w, t, items, [], env, log, at);
            RunLoop(w, t, items, done, env, log, at) == (s, done + rs)
    decreases |items|
  {
    if items == [] {
      assert done + [] == done;
    } else {
      var here := env["item" := items[0]];
      var d := Process(w, Iteration(t), here, log, at);
      if d.result.Some? {
        var r := d.result.value;
        RunLoopAccumulates(w, t, items[1..], [r], here, d.log, at);
        RunLoopAccumulates(w, t, items[1..], done + [r], here, d.log, at);
        var (s, rs) := RunLoop(w, t, items[1..], [], here, d.log, at);
        assert (done + [r]) + rs == done + ([r] + rs);
        assert [] + [r] == [r];
      } else {
        assert done + [] == done;
      }
    }
  }

  /**
   What a loop does. Iteration i runs the same task in the environment of the loop with `item`
   bound to item i, whatever the iterations before did. Without an error all items are done, in
   order, with one result each; on an error at item i exactly items 0 to i were attempted.
   */
  lemma {:induction false} LoopIterations(w: World, t: Task, items: seq<Value>, env: Vars, log: Log, at: Place)
    returns (logs: seq<Log>)
    ensures var (s, rs) := RunLoop(w, t, items, [], env, log, at);
            LoopTrace(w, t, items, env, logs, s, rs, at) && logs[0] == log
    decreases |items|
  {
    if items == [] {
      logs := [log];
    } else {
      var here := env["item" := items[0]];
      var d := Process(w, Iteration(t), here, log, at);
      assert Iterate(w, t, items, 0, env, log, at) == d;
      if d.result.None? {
        logs := [log, d.log];
      } else {
        var rest := LoopIterations(w, t, items[1..], here, d.log, at);
        RunLoopAccumulates(w, t, items[1..], [d.result.value], here, d.log, at);
        var (s, rs) := RunLoop(w, t, items[1..], [], here, d.log, at);
        assert [] + [d.result.value] == [d.result.value];
        LoopTraceCons(w, t, items, env, log, rest, s, d.result.value, rs, at);
        logs := [log] + rest;
      }
    }
  }

  lemma IterateShift(w: World, t: Task, items: seq<Value>, env: Vars, i: nat, log: Log, at: Place)
    requires i < |items| - 1
    ensures Iterate(w, t, items[1..], i, env["item" := items[0]], log, at) == Iterate(w, t, items, i + 1, env, log, at)
  {
    assert env["item" := items[0]]["item" := items[i + 1]] == env["item" := items[i + 1]];
  }

  lemma LogsChainCons(w: World, t: Task, items: seq<Value>, env: Vars, log: Log, rest: seq<Log>, at: Place)
    requires items != []
    requires LogsChain(w, t, items[1..], env["item" := items[0]], rest, at)
    requires Iterate(w, t, items, 0, env, log, at).log == rest[0]
    ensures LogsChain(w, t, items, env, [log] + rest, at)
  {
    var logs := [log] + rest;
    forall i | 0 <= i < |logs| - 1 ensures Iterate(w, t, items, i, env, logs[i], at).log == logs[i + 1] {
      if i > 0 {
        assert logs[i] == rest[i - 1] && logs[i + 1] == rest[i];
        IterateShift(w, t, items, env, i - 1, rest[i - 1], at);
      }
    }
  }

  lemma ResultsMatchCons(w: World, t: Task, items: seq<Value>, env: Vars, log: Log, rest: seq<Log>, r: Result,
                         rs: seq<Result>, at: Place)
    requires items != []
    requires ResultsMatch(w, t, items[1..], env["item" := items[0]], rest, rs, at)
    requires Iterate(w, t, items, 0, env, log, at).result == Some(r)
    ensures ResultsMatch(w, t, items, env, [log] + rest, [r] + rs, at)
  {
    var logs, results := [log] + rest, [r] + rs;
    forall i | 0 <= i < |results| ensures Iterate(w, t, items, i, env, logs[i], at).result == Some(results[i]) {
      if i > 0 {
        assert logs[i] == rest[i - 1] && results[i] == rs[i - 1];
        IterateShift(w, t, items, env, i - 1, rest[i - 1], at);
      }
    }
  }

  lemma LoopTraceCons(w: World, t: Task, items: seq<Value>, env: Vars, log: Log, rest: seq<Log>, s: State, r: Result,
                      rs: seq<Result>, at: Place)
    requires items != []
    requires LoopTrace(w, t, items[1..], env["item" := items[0]], rest, s, rs, at)
    requires Iterate(w, t, items, 0, env, log, at) == Ran(rest[0], Some(r))
    ensures LoopTrace(w, t, items, env, [log] + rest, s, [r] + rs, at)
  {
    LogsChainCons(w, t, items, env, log, rest, at);
    ResultsMatchCons(w, t, items, env, log, rest, r, rs, at);
    var logs, results := [log] + rest, [r] + rs;
    assert logs[|logs| - 1] == rest[|rest| - 1];
    if !s.ok {
      assert logs[|results|] == rest[|rs|];
      IterateShift(w, t, items, env, |rs|, rest[|rs|], at);
    }
    if |rest| > 1 {
      assert env["item" := items[0]]["item" := items[1..][|rest| - 2]] == env["item" := items[|logs| - 2]];
    }
  }

  /** What a looping task binds: `item`, and the collected results only when every iteration succeeded. */
  lemma LoopBindings(w: World, t: Task, env: Vars, log: Log, at: Place)
    requires !t.loop.NoLoop? && LoopItems(w.engine, t.loop, env).Some?
    ensures var items := LoopItems(w.engine, t.loop, env).value;
            var (s, rs) := RunLoop(w, t, items, [], env, log, at);
            var out := Execute(w, t, env, log, at);
            && out.ok == s.ok && out.log == s.log
            && (forall k :: k in out.env && k != "item" && k != t.register ==> k in env && out.env[k] == env[k])
            && (out.ok && t.register != "" ==>
                  out.env[t.register] == LoopValue(rs) && |rs| == |items|
                  && (LoopValue(rs).changed <==> exists i :: 0 <= i < |rs| && rs[i].changed)
                  && (LoopValue(rs).skipped <==> exists i :: 0 <= i < |rs| && rs[i].skipped)
                  && (LoopValue(rs).failed <==> exists i :: 0 <= i < |rs| && rs[i].failed))
            && (!out.ok && t.register != "item" ==> (t.register in out.env <==> t.register in env))
  {
    var items := LoopItems(w.engine, t.loop, env).value;
    var logs := LoopIterations(w, t, items, env, log, at);
    var (s, rs) := RunLoop(w, t, items, [], env, log, at);
    assert LoopValue(rs).changed <==> exists i :: 0 <= i < |rs| && rs[i].changed;
    assert LoopValue(rs).skipped <==> exists i :: 0 <= i < |rs| && rs[i].skipped;
    assert LoopValue(rs).failed <==> exists i :: 0 <= i < |rs| && rs[i].failed;
  }

  // ---------------------------------------------------------------- scopes

  /** The play's environment after the roles in `names`: each overrides with its own variables. */
  function PlayEnvAfter(roles: map<string, Role>, names: seq<string>, env: Vars): Vars {
    if names == [] then env
    else
      var before := PlayEnvAfter(roles, names[..|names| - 1], env);
      var last := names[|names| - 1];
      if last in roles then before + roles[last].vars else before
  }

  lemma {:induction false} RunRolesAppend(st: Setting, roles: map<string, Role>, a: seq<string>, b: seq<string>,
                                          env: Vars, log: Log)
    ensures var s := RunRoles(st, roles, a, env, log);
            RunRoles(st, roles, a + b, env, log) == if s.ok then RunRoles(st, roles, b, s.env, s.log) else s
  {
    if a == [] {
      assert a + b == b;
    } else {
      assert (a + b)[0] == a[0] && (a + b)[1..] == a[1..] + b;
      if a[0] in roles {
        var s := RunRole(st.world, roles[a[0]], env, log, st.world.join(st.rolesDir, a[0]));
        if s.ok { RunRolesAppend(st, roles, a[1..], b, s.env, s.log); }
      }
    }
  }

  /**
   Role i of a play starts in its defaults, overridden by the play's environment with the variables
   of the roles before it, overridden by its own variables; after it the play's environment is the
   old one overridden by its variables, so neither its defaults nor anything its tasks bind escapes.
   */
  lemma {:induction false} RoleScopes(st: Setting, roles: map<string, Role>, names: seq<string>, env: Vars, log: Log)
    ensures RunRoles(st, roles, names, env, log).ok ==>
              && (forall i :: 0 <= i < |names| ==> names[i] in roles && RunRoles(st, roles, names[..i], env, log).ok)
              && RunRoles(st, roles, names, env, log).env == PlayEnvAfter(roles, names, env)
    ensures RunRoles(st, roles, names, env, log).ok && names != [] ==>
              var last := names[|names| - 1];
              var before := RunRoles(st, roles, names[..|names| - 1], env, log);
              RunRoles(st, roles, names, env, log).log ==
              ExecuteAll(st.world, roles[last].tasks,
                         roles[last].defaults + PlayEnvAfter(roles, names[..|names| - 1], env) + roles[last].vars,
                         before.log, Place(st.world.join(st.rolesDir, last), true)).log
  {
    if names != [] {
      var n := |names| - 1;
      var init, last := names[..n], names[n];
      assert init + [last] == names;
      RunRolesAppend(st, roles, init, [last], env, log);
      RoleScopes(st, roles, init, env, log);
      var s := RunRoles(st, roles, init, env, log);
      if RunRoles(st, roles, names, env, log).ok {
        assert RunRoles(st, roles, [last], s.env, s.log).ok;
        assert RunRoles(st, roles, [last], s.env, s.log)
            == RunRole(st.world, roles[last], s.env, s.log, st.world.join(st.rolesDir, last));
        forall i | 0 <= i < |names| ensures names[i] in roles && RunRoles(st, roles, names[..i], env, log).ok {
          if i < n { assert init[i] == names[i] && init[..i] == names[..i]; }
        }
      }
    }
  }

  /** Where a name in the play's environment after the roles comes from: the last role defining it, else the play. */
  lemma {:induction false} PlayEnvLookup(roles: map<string, Role>, names: seq<string>, env: Vars, k: string)
    returns (i: int)
    requires forall j :: 0 <= j < |names| ==> names[j] in roles
    ensures -1 <= i < |names|
    ensures forall j :: i < j < |names| ==> k !in roles[names[j]].vars
    ensures i >= 0 ==> k in roles[names[i]].vars
                       && k in PlayEnvAfter(roles, names, env)
                       && PlayEnvAfter(roles, names, env)[k] == roles[names[i]].vars[k]
    ensures i == -1 ==> (k in PlayEnvAfter(roles, names, env) <==> k in env)
                        && (k in env ==> PlayEnvAfter(roles, names, env)[k] == env[k])
  {
    i := -1;
    if names != [] {
      var n := |names| - 1;
      if k in roles[names[n]].vars {
        i := n;
      } else {
        i := PlayEnvLookup(roles, names[..n], env, k);
        forall j | i < j < |names| ensures k !in roles[names[j]].vars {
          if j < n { assert names[..n][j] == names[j]; }
        }
      }
    }
  }

  /** A play starts from the inventory, its variables and its files, whatever the plays before it did. */
  lemma PlaysAreIndependent(st: Setting, roles: map<string, Role>, play: Play, log: Log)
    requires RunPlay(st, roles, play, log).ok
    ensures var start := LoadVars(st, play.varsFiles, st.inventory + play.vars);
            && start.Some?
            && (forall i :: 0 <= i < |play.roles| ==> play.roles[i] in roles)
            && var r := RunRoles(st, roles, play.roles, start.value, log);
            && r.env == PlayEnvAfter(roles, play.roles, start.value)
            && RunPlay(st, roles, play, log)
               == ExecuteAll(st.world, play.tasks, PlayEnvAfter(roles, play.roles, start.value), r.log,
                              Place(st.playbookDir, false))
  {
    RoleScopes(st, roles, play.roles, LoadVars(st, play.varsFiles, st.inventory + play.vars).value, log);
  }
}
