/** How deep task files nest: what is recorded only grows, and a depth that suffices is as good as any larger one. */
module Nesting {
  import opened Prelude
  import opened Variables
  import opened Templates
  import opened Tasks

  // ---------------------------------------------------------------- records grow

  lemma {:induction false} ActGrows(w: World, a: Action, env: Vars, log: Log, at: Place, n: nat)
    ensures log <= Act(w, a, env, log, at, n).log
    decreases n, 0
  {
    if a.TaskFile? && n > 0 && w.files(TaskPath(w, at, a.file)).Some? {
      RunFileGrows(w, w.files(TaskPath(w, at, a.file)).value, env, log, at, n - 1);
    }
  }

  lemma {:induction false} RunFileGrows(w: World, ts: seq<Task>, env: Vars, log: Log, at: Place, n: nat)
    ensures log <= RunFile(w, ts, env, log, at, n).log
    decreases n, 1 + |ts|
  {
    if ts != [] {
      var t := Render(w.engine, ts[0], env).task;
      if t.Some? && Valid(w, t.value.action) {
        ActGrows(w, t.value.action, env, log, at, n);
        var done := Act(w, t.value.action, env, log, at, n);
        RunFileGrows(w, ts[1..], env, done.log, at, n);
      }
    }
  }

  lemma ProcessGrows(w: World, t: Task, env: Vars, log: Log, at: Place)
    ensures log <= Process(w, t, env, log, at).log
  {
    var r := Render(w.engine, t.(loop := NoLoop), env).task;
    if r.Some? {
      ActGrows(w, r.value.action, env, log, at, w.depth);
    }
  }

  lemma {:induction false} RunLoopGrows(w: World, t: Task, items: seq<Value>, rs: seq<Result>, env: Vars, log: Log,
                                        at: Place)
    ensures log <= RunLoop(w, t, items, rs, env, log, at).0.log
    decreases |items|
  {
    if items != [] {
      var here := env["item" := items[0]];
      ProcessGrows(w, Iteration(t), here, log, at);
      var done := Process(w, Iteration(t), here, log, at);
      if done.result.Some? {
        RunLoopGrows(w, t, items[1..], rs + [done.result.value], here, done.log, at);
      }
    }
  }

  lemma ExecuteGrows(w: World, t: Task, env: Vars, log: Log, at: Place)
    ensures log <= Execute(w, t, env, log, at).log
  {
    if t.loop.NoLoop? {
      ProcessGrows(w, t, env, log, at);
    } else if LoopItems(w.engine, t.loop, env).Some? {
      RunLoopGrows(w, t, LoopItems(w.engine, t.loop, env).value, [], env, log, at);
    }
  }

  lemma {:induction false} ExecuteAllGrows(w: World, ts: seq<Task>, env: Vars, log: Log, at: Place)
    ensures log <= ExecuteAll(w, ts, env, log, at).log
    decreases |ts|
  {
    if ts != [] {
      ExecuteGrows(w, ts[0], env, log, at);
      var s := Execute(w, ts[0], env, log, at);
      ExecuteAllGrows(w, ts[1..], s.env, s.log, at);
    }
  }

  lemma {:induction false} RunRolesGrow(st: Setting, roles: map<string, Role>, names: seq<string>, env: Vars, log: Log)
    ensures log <= RunRoles(st, roles, names, env, log).log
    decreases |names|
  {
    if names != [] && names[0] in roles {
      var dir := st.world.join(st.rolesDir, names[0]);
      var s := RunRole(st.world, roles[names[0]], env, log, dir);
      ExecuteAllGrows(st.world, roles[names[0]].tasks, RoleEnv(roles[names[0]], env), log, Place(dir, true));
      RunRolesGrow(st, roles, names[1..], s.env, s.log);
    }
  }

  lemma RunPlayGrows(st: Setting, roles: map<string, Role>, play: Play, log: Log)
    ensures log <= RunPlay(st, roles, play, log).log
  {
    var env := LoadVars(st, play.varsFiles, st.inventory + play.vars);
    if env.Some? {
      RunRolesGrow(st, roles, play.roles, env.value, log);
      var s := RunRoles(st, roles, play.roles, env.value, log);
      ExecuteAllGrows(st.world, play.tasks, s.env, s.log, Place(st.playbookDir, false));
    }
  }

  lemma {:induction false} RunPlaybookGrows(st: Setting, roles: map<string, Role>, plays: seq<Play>, log: Log)
    ensures log <= RunPlaybook(st, roles, plays, log).0
    decreases |plays|
  {
    if plays != [] {
      RunPlayGrows(st, roles, plays[0], log);
      var s := RunPlay(st, roles, plays[0], log);
      RunPlaybookGrows(st, roles, plays[1..], if Matches(st, plays[0].hosts) then s.log else log);
    }
  }

  lemma NoneBefore(a: Log, b: Log)
    requires a <= b && Overflow !in b
    ensures Overflow !in a
  {
    forall k | 0 <= k < |a| ensures a[k] != Overflow {
      assert a[k] == b[k];
    }
  }

  // ---------------------------------------------------------------- a larger depth changes nothing

  function Deeper(w: World, m: nat): World {
    w.(depth := m)
  }

  lemma {:induction false} ActDeeper(w: World, a: Action, env: Vars, log: Log, at: Place, n: nat, m: nat, k: nat)
    requires n <= k && Overflow !in Act(w, a, env, log, at, n).log
    ensures Act(Deeper(w, m), a, env, log, at, k) == Act(w, a, env, log, at, n)
    decreases n, 0
  {
    if a.TaskFile? && n > 0 {
      var path := TaskPath(w, at, a.file);
      assert TaskPath(Deeper(w, m), at, a.file) == path;
      if w.files(path).Some? {
        RunFileDeeper(w, w.files(path).value, env, log, at, n - 1, m, k - 1);
      }
    }
  }

  lemma {:induction false} RunFileDeeper(w: World, ts: seq<Task>, env: Vars, log: Log, at: Place, n: nat, m: nat,
                                         k: nat)
    requires n <= k && Overflow !in RunFile(w, ts, env, log, at, n).log
    ensures RunFile(Deeper(w, m), ts, env, log, at, k) == RunFile(w, ts, env, log, at, n)
    decreases n, 1 + |ts|
  {
    if ts != [] {
      var t := Render(w.engine, ts[0], env).task;
      if t.Some? && Valid(w, t.value.action) {
        var done := Act(w, t.value.action, env, log, at, n);
        if done.result.Some? {
          RunFileGrows(w, ts[1..], env, done.log, at, n);
          NoneBefore(done.log, RunFile(w, ts, env, log, at, n).log);
          RunFileDeeper(w, ts[1..], env, done.log, at, n, m, k);
        }
        ActDeeper(w, t.value.action, env, log, at, n, m, k);
      }
    }
  }

  lemma ProcessDeeper(w: World, t: Task, env: Vars, log: Log, at: Place, m: nat)
    requires w.depth <= m && Overflow !in Process(w, t, env, log, at).log
    ensures Process(Deeper(w, m), t, env, log, at) == Process(w, t, env, log, at)
  {
    var r := Render(w.engine, t.(loop := NoLoop), env).task;
    if r.Some? && When(w.engine, r.value.when_, env) == Some(true) && Valid(w, r.value.action) {
      ActDeeper(w, r.value.action, env, log, at, w.depth, m, m);
    }
  }

  lemma {:induction false} RunLoopDeeper(w: World, t: Task, items: seq<Value>, rs: seq<Result>, env: Vars, log: Log,
                                         at: Place, m: nat)
    requires w.depth <= m && Overflow !in RunLoop(w, t, items, rs, env, log, at).0.log
    ensures RunLoop(Deeper(w, m), t, items, rs, env, log, at) == RunLoop(w, t, items, rs, env, log, at)
    decreases |items|
  {
    if items != [] {
      var here := env["item" := items[0]];
      var done := Process(w, Iteration(t), here, log, at);
      if done.result.Some? {
        RunLoopGrows(w, t, items[1..], rs + [done.result.value], here, done.log, at);
        NoneBefore(done.log, RunLoop(w, t, items, rs, env, log, at).0.log);
        RunLoopDeeper(w, t, items[1..], rs + [done.result.value], here, done.log, at, m);
      }
      ProcessDeeper(w, Iteration(t), here, log, at, m);
    }
  }

  lemma ExecuteDeeper(w: World, t: Task, env: Vars, log: Log, at: Place, m: nat)
    requires w.depth <= m && Overflow !in Execute(w, t, env, log, at).log
    ensures Execute(Deeper(w, m), t, env, log, at) == Execute(w, t, env, log, at)
  {
    if t.loop.NoLoop? {
      ProcessDeeper(w, t, env, log, at, m);
    } else if LoopItems(w.engine, t.loop, env).Some? {
      RunLoopDeeper(w, t, LoopItems(w.engine, t.loop, env).value, [], env, log, at, m);
    }
  }

  lemma {:induction false} ExecuteAllDeeper(w: World, ts: seq<Task>, env: Vars, log: Log, at: Place, m: nat)
    requires w.depth <= m && Overflow !in ExecuteAll(w, ts, env, log, at).log
    ensures ExecuteAll(Deeper(w, m), ts, env, log, at) == ExecuteAll(w, ts, env, log, at)
    decreases |ts|
  {
    if ts != [] {
      var s := Execute(w, ts[0], env, log, at);
      if s.ok {
        ExecuteAllGrows(w, ts[1..], s.env, s.log, at);
        NoneBefore(s.log, ExecuteAll(w, ts, env, log, at).log);
        ExecuteAllDeeper(w, ts[1..], s.env, s.log, at, m);
      }
      ExecuteDeeper(w, ts[0], env, log, at, m);
    }
  }

  function DeeperSetting(st: Setting, m: nat): Setting {
    st.(world := Deeper(st.world, m))
  }

  lemma {:induction false} RunRolesDeeper(st: Setting, roles: map<string, Role>, names: seq<string>, env: Vars,
                                          log: Log, m: nat)
    requires st.world.depth <= m && Overflow !in RunRoles(st, roles, names, env, log).log
    ensures RunRoles(DeeperSetting(st, m), roles, names, env, log) == RunRoles(st, roles, names, env, log)
    decreases |names|
  {
    if names != [] && names[0] in roles {
      var dir := st.world.join(st.rolesDir, names[0]);
      var s := RunRole(st.world, roles[names[0]], env, log, dir);
      if s.ok {
        RunRolesGrow(st, roles, names[1..], s.env, s.log);
        NoneBefore(s.log, RunRoles(st, roles, names, env, log).log);
        RunRolesDeeper(st, roles, names[1..], s.env, s.log, m);
      }
      ExecuteAllDeeper(st.world, roles[names[0]].tasks, RoleEnv(roles[names[0]], env), log, Place(dir, true), m);
    }
  }

  lemma {:induction false} LoadVarsDeeper(st: Setting, files: seq<string>, env: Vars, m: nat)
    ensures LoadVars(DeeperSetting(st, m), files, env) == LoadVars(st, files, env)
  {
    if files != [] {
      var vars := st.loadVars(st.world.join(st.playbookDir, files[0]));
      if vars.Some? { LoadVarsDeeper(st, files[1..], env + vars.value, m); }
    }
  }

  lemma RunPlayDeeper(st: Setting, roles: map<string, Role>, play: Play, log: Log, m: nat)
    requires st.world.depth <= m && Overflow !in RunPlay(st, roles, play, log).log
    ensures RunPlay(DeeperSetting(st, m), roles, play, log) == RunPlay(st, roles, play, log)
  {
    LoadVarsDeeper(st, play.varsFiles, st.inventory + play.vars, m);
    var env := LoadVars(st, play.varsFiles, st.inventory + play.vars);
    if env.Some? {
      var s := RunRoles(st, roles, play.roles, env.value, log);
      if s.ok {
        ExecuteAllGrows(st.world, play.tasks, s.env, s.log, Place(st.playbookDir, false));
        NoneBefore(s.log, RunPlay(st, roles, play, log).log);
        ExecuteAllDeeper(st.world, play.tasks, s.env, s.log, Place(st.playbookDir, false), m);
      }
      RunRolesDeeper(st, roles, play.roles, env.value, log, m);
    }
  }

  /** A run that does not use up the depth is the same with any larger one: the depth is not part of what it means. */
  lemma {:induction false} LargerDepthIsSame(st: Setting, roles: map<string, Role>, plays: seq<Play>, log: Log, m: nat)
    requires st.world.depth <= m && Overflow !in RunPlaybook(st, roles, plays, log).0
    ensures RunPlaybook(DeeperSetting(st, m), roles, plays, log) == RunPlaybook(st, roles, plays, log)
    decreases |plays|
  {
    if plays != [] {
      if Matches(st, plays[0].hosts) {
        var s := RunPlay(st, roles, plays[0], log);
        if s.ok {
          RunPlaybookGrows(st, roles, plays[1..], s.log);
          NoneBefore(s.log, RunPlaybook(st, roles, plays, log).0);
          LargerDepthIsSame(st, roles, plays[1..], s.log, m);
        }
        RunPlayDeeper(st, roles, plays[0], log, m);
      } else {
        LargerDepthIsSame(st, roles, plays[1..], log, m);
      }
    }
  }

  // ---------------------------------------------------------------- which imports end

  /** The task file that `t` opens with these variables, in this place. */
  function Reference(w: World, t: Task, env: Vars, at: Place): Option<string> {
    var r := Render(w.engine, t, env).task;
    if r.Some? && r.value.action.TaskFile? && r.value.action.file != ""
    then Some(TaskPath(w, at, r.value.action.file)) else None
  }

  /** Whatever files `ts` leads to are open at most `n` deep; variables and place stay the same along the way. */
  predicate NestsWithin(w: World, ts: seq<Task>, env: Vars, at: Place, n: nat)
    decreases n
  {
    forall k :: 0 <= k < |ts| && Reference(w, ts[k], env, at).Some? ==>
      && n > 0
      && var tasks := w.files(Reference(w, ts[k], env, at).value);
         tasks.Some? ==> NestsWithin(w, tasks.value, env, at, n - 1)
  }

  /** A depth within which the files nest suffices. */
  lemma {:induction false} NestingSuffices(w: World, ts: seq<Task>, env: Vars, log: Log, at: Place, n: nat)
    requires NestsWithin(w, ts, env, at, n) && Overflow !in log
    ensures Overflow !in RunFile(w, ts, env, log, at, n).log
    decreases n, 1 + |ts|
  {
    if ts != [] {
      var t := Render(w.engine, ts[0], env).task;
      if t.Some? && Valid(w, t.value.action) {
        var a := t.value.action;
        if a.TaskFile? {
          assert Reference(w, ts[0], env, at) == Some(TaskPath(w, at, a.file));
          var tasks := w.files(TaskPath(w, at, a.file));
          if tasks.Some? { NestingSuffices(w, tasks.value, env, log, at, n - 1); }
        }
        var done := Act(w, a, env, log, at, n);
        if done.result.Some? {
          NestingSuffices(w, ts[1..], env, done.log, at, n);
        }
      }
    }
  }

  /** A run that succeeds has opened every file it leads to. */
  lemma {:induction false} SuccessNests(w: World, ts: seq<Task>, env: Vars, log: Log, at: Place, n: nat)
    requires RunFile(w, ts, env, log, at, n).result.Some?
    ensures NestsWithin(w, ts, env, at, n)
    decreases n, 1 + |ts|
  {
    if ts != [] {
      var a := Render(w.engine, ts[0], env).task.value.action;
      var done := Act(w, a, env, log, at, n);
      SuccessNests(w, ts[1..], env, done.log, at, n);
      if a.TaskFile? {
        SuccessNests(w, w.files(TaskPath(w, at, a.file)).value, env, log, at, n - 1);
      }
      forall k | 0 <= k < |ts| && Reference(w, ts[k], env, at).Some?
        ensures n > 0
        ensures var tasks := w.files(Reference(w, ts[k], env, at).value);
                tasks.Some? ==> NestsWithin(w, tasks.value, env, at, n - 1)
      {
        if k > 0 { assert ts[k] == ts[1..][k - 1]; }
      }
    }
  }

  /** If, given depth enough, nothing fails, then a depth is enough exactly when the files nest within it. */
  lemma EndsExactlyIfNests(w: World, ts: seq<Task>, env: Vars, log: Log, at: Place, n: nat, enough: nat)
    requires Overflow !in log && RunFile(w, ts, env, log, at, enough).result.Some?
    ensures Overflow !in RunFile(w, ts, env, log, at, n).log <==> NestsWithin(w, ts, env, at, n)
  {
    if NestsWithin(w, ts, env, at, n) {
      NestingSuffices(w, ts, env, log, at, n);
    } else if Overflow !in RunFile(w, ts, env, log, at, n).log {
      var k := if n < enough then enough else n;
      SuccessNests(w, ts, env, log, at, enough);
      NestingSuffices(w, ts, env, log, at, enough);
      RunFileDeeper(w, ts, env, log, at, n, w.depth, k);
      RunFileDeeper(w, ts, env, log, at, enough, w.depth, k);
      SuccessNests(w, ts, env, log, at, n);
      assert false;
    }
  }

  /** Every file in `files` refers only to files in `files`, of lower rank. */
  ghost predicate Descends(w: World, files: iset<string>, rank: string -> nat, env: Vars, at: Place) {
    forall path :: path in files && w.files(path).Some? ==>
      RefersBelow(w, files, rank, w.files(path).value, env, at, rank(path))
  }

  /** The tasks refer only to files in `files`, of rank below `r`. */
  ghost predicate RefersBelow(w: World, files: iset<string>, rank: string -> nat, ts: seq<Task>, env: Vars, at: Place,
                              r: nat)
  {
    forall k :: 0 <= k < |ts| && Reference(w, ts[k], env, at).Some? ==>
      var path := Reference(w, ts[k], env, at).value;
      path in files && rank(path) < r
  }

  /** If references descend in some rank, over the files that can be reached, the files nest within it. */
  lemma {:induction false} DescendingNests(w: World, files: iset<string>, rank: string -> nat, ts: seq<Task>, env: Vars,
                                           at: Place, n: nat)
    requires Descends(w, files, rank, env, at) && RefersBelow(w, files, rank, ts, env, at, n)
    ensures NestsWithin(w, ts, env, at, n)
    decreases n
  {
    forall k | 0 <= k < |ts| && Reference(w, ts[k], env, at).Some?
      ensures n > 0
      ensures var tasks := w.files(Reference(w, ts[k], env, at).value);
              tasks.Some? ==> NestsWithin(w, tasks.value, env, at, n - 1)
    {
      var path := Reference(w, ts[k], env, at).value;
      if w.files(path).Some? {
        var tasks := w.files(path).value;
        assert RefersBelow(w, files, rank, tasks, env, at, rank(path));
        assert RefersBelow(w, files, rank, tasks, env, at, n - 1);
        DescendingNests(w, files, rank, tasks, env, at, n - 1);
      }
    }
  }

  /** How deep the files below a path nest, if that is below `n`. */
  function Height(w: World, path: string, env: Vars, at: Place, n: nat): (h: nat)
    ensures h <= n
    ensures h < n && w.files(path).Some? ==> NestsWithin(w, w.files(path).value, env, at, h)
    ensures forall m :: 0 <= m < n && w.files(path).Some? && NestsWithin(w, w.files(path).value, env, at, m) ==> h <= m
    ensures w.files(path).None? ==> h == 0
  {
    if n == 0 || w.files(path).None? then 0
    else
      var h := Height(w, path, env, at, n - 1);
      if h < n - 1 || NestsWithin(w, w.files(path).value, env, at, h) then h else n
  }

  /** Files that nest within a depth descend in a rank: how deep what is below each of them nests. */
  lemma NestingDescends(w: World, ts: seq<Task>, env: Vars, at: Place, n: nat)
    returns (files: iset<string>, rank: string -> nat)
    requires NestsWithin(w, ts, env, at, n)
    ensures Descends(w, files, rank, env, at) && RefersBelow(w, files, rank, ts, env, at, n)
  {
    files := iset path | Height(w, path, env, at, n) < n;
    rank := (path: string) => Height(w, path, env, at, n);
    forall path | path in files && w.files(path).Some?
      ensures RefersBelow(w, files, rank, w.files(path).value, env, at, rank(path))
    {
      HeightsBelow(w, w.files(path).value, env, at, rank(path), n, files, rank);
    }
    HeightsBelow(w, ts, env, at, n, n, files, rank);
  }

  lemma HeightsBelow(w: World, ts: seq<Task>, env: Vars, at: Place, m: nat, n: nat, files: iset<string>,
                     rank: string -> nat)
    requires m <= n && NestsWithin(w, ts, env, at, m)
    requires files == iset path | Height(w, path, env, at, n) < n
    requires forall path :: rank(path) == Height(w, path, env, at, n)
    ensures RefersBelow(w, files, rank, ts, env, at, m)
  {
    forall k | 0 <= k < |ts| && Reference(w, ts[k], env, at).Some?
      ensures var path := Reference(w, ts[k], env, at).value; path in files && rank(path) < m
    {
      var path := Reference(w, ts[k], env, at).value;
      assert w.files(path).Some? ==> NestsWithin(w, w.files(path).value, env, at, m - 1);
      assert rank(path) == Height(w, path, env, at, n);
    }
  }

  /** A file with a reference back to it, anywhere in it, nests within no depth and never runs to its end. */
  lemma {:induction false} SelfImportNeverSucceeds(w: World, ts: seq<Task>, k: nat, env: Vars, log: Log, at: Place,
      n: nat)
    requires k < |ts| && Reference(w, ts[k], env, at).Some?
    requires w.files(Reference(w, ts[k], env, at).value) == Some(ts)
    ensures !NestsWithin(w, ts, env, at, n) && RunFile(w, ts, env, log, at, n).result.None?
    decreases n
  {
    if n > 0 {
      SelfImportNeverSucceeds(w, ts, k, env, log, at, n - 1);
    }
    if RunFile(w, ts, env, log, at, n).result.Some? {
      SuccessNests(w, ts, env, log, at, n);
      assert false;
    }
  }

  /** A file whose first task leads back to it uses up every depth. */
  lemma {:induction false} SelfImportNeverEnds(w: World, ts: seq<Task>, env: Vars, log: Log, at: Place, n: nat)
    requires ts != [] && Reference(w, ts[0], env, at).Some?
    requires w.files(Reference(w, ts[0], env, at).value) == Some(ts)
    ensures RunFile(w, ts, env, log, at, n) == Ran(log + [Overflow], None)
    decreases n
  {
    if n > 0 {
      SelfImportNeverEnds(w, ts, env, log, at, n - 1);
    }
  }
}
