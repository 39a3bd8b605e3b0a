/** Jinja rendering of task structures, in place and field by field, over an abstract engine. */
module Templates {
  import opened Prelude
  import opened Variables

  /** What evaluating a template that may be a lone expression gives. */
  datatype Evaluated = Bad | Nil | Elements(items: seq<Value>) | Plain

  /** gonja: rendering to a string, and the value of a template that is a single output node. */
  datatype Engine = Engine(text: (string, Vars) -> Option<string>, eval: (string, Vars) -> Evaluated)

  /** The fields of a task's message: strings, lists of strings, nested messages. */
  datatype Field = Str(s: string) | Strs(ss: seq<string>) | Rec(fields: seq<Field>)

  /** The content of a task: a module call, or the import or inclusion of a file of tasks. */
  datatype Action = Module(kind: string, fields: seq<Field>) | TaskFile(file: string)

  /** A loop as the playbook gives it. */
  datatype Loop = NoLoop | Template(template: string) | Literal(items: seq<Value>) | NotAList

  function RenderText(e: Engine, s: string, env: Vars): Option<string> {
    if s == "" then Some("") else e.text(s, env)
  }

  predicate HasBraces(s: string) {
    exists i :: 0 <= i < |s| - 1 && s[i] == '{' && s[i + 1] == '{'
  }

  function AllText(items: seq<Value>): Option<seq<string>> {
    if items == [] then Some([])
    else
      match (AllText(items[..|items| - 1]), items[|items| - 1])
      case (Some(ss), Text(s)) => Some(ss + [s])
      case _ => None
  }

  /** `renderJinjaStringToSlice`: an error (`None`), nothing for nil (`Some(None)`), or a list of strings. */
  function RenderToSlice(e: Engine, s: string, env: Vars): Option<Option<seq<string>>> {
    if s == "" || !HasBraces(s) then Some(Some([s]))
    else
      match e.eval(s, env)
      case Bad => None
      case Nil => Some(None)
      case Elements(items) => (match AllText(items) case None => None case Some(ss) => Some(Some(ss)))
      case Plain => (match e.text(s, env) case None => None case Some(t) => Some(Some([t])))
  }

  /** A list of strings, each replaced by what it renders to. */
  function RenderStrings(e: Engine, ss: seq<string>, env: Vars): Option<seq<string>> {
    if ss == [] then Some([])
    else
      match (RenderStrings(e, ss[..|ss| - 1], env), RenderToSlice(e, ss[|ss| - 1], env))
      case (Some(before), Some(None)) => Some(before)
      case (Some(before), Some(Some(more))) => Some(before + more)
      case _ => None
  }

  /** Fields rendered in order; on an error the fields before it stay rendered and the rest untouched. */
  function RenderFields(e: Engine, fields: seq<Field>, env: Vars): (r: (seq<Field>, bool))
    ensures |r.0| == |fields|
  {
    if fields == [] then ([], true)
    else
      var (f, ok) := RenderField(e, fields[0], env);
      if !ok then ([f] + fields[1..], false)
      else
        var (rest, restOk) := RenderFields(e, fields[1..], env);
        ([f] + rest, restOk)
  }

  function RenderField(e: Engine, f: Field, env: Vars): (Field, bool) {
    match f
    case Str(s) => (match RenderText(e, s, env) case None => (f, false) case Some(t) => (Str(t), true))
    case Strs(ss) => (match RenderStrings(e, ss, env) case None => (f, false) case Some(ts) => (Strs(ts), true))
    case Rec(fs) => var (gs, ok) := RenderFields(e, fs, env); (Rec(gs), ok)
  }

  function RenderAction(e: Engine, a: Action, env: Vars): (Action, bool) {
    match a
    case Module(k, fields) => var (fs, ok) := RenderFields(e, fields, env); (Module(k, fs), ok)
    case TaskFile(f) => (match RenderText(e, f, env) case None => (a, false) case Some(g) => (TaskFile(g), true))
  }

  /** The items of a loop once its template is rendered; `None` when that fails or gives no list. */
  function LoopItems(e: Engine, loop: Loop, env: Vars): Option<seq<Value>> {
    match loop
    case NoLoop => None
    case NotAList => None
    case Literal(items) => Some(items)
    case Template(t) =>
      match RenderToSlice(e, t, env)
      case Some(Some(ss)) => if |ss| > 1 then Some(seq(|ss|, i requires 0 <= i < |ss| => Text(ss[i]))) else None
      case _ => None
  }

  /** A template gives a loop only when it evaluates to a list of strings with two elements or more. */
  lemma TemplateLoopsAreLong(e: Engine, t: string, env: Vars)
    ensures var r := LoopItems(e, Template(t), env);
            r.Some? <==>
              && t != "" && HasBraces(t)
              && e.eval(t, env).Elements? && AllText(e.eval(t, env).items).Some? && |e.eval(t, env).items| >= 2
    ensures LoopItems(e, Template(t), env).Some? ==> LoopItems(e, Template(t), env).value == e.eval(t, env).items
  {
    if t != "" && HasBraces(t) && e.eval(t, env).Elements? {
      AllTextSame(e.eval(t, env).items);
    }
  }

  lemma {:induction false} AllTextSame(items: seq<Value>)
    ensures AllText(items).Some? ==>
              && |AllText(items).value| == |items|
              && forall i :: 0 <= i < |items| ==> items[i] == Text(AllText(items).value[i])
  {
    if items != [] {
      AllTextSame(items[..|items| - 1]);
    }
  }

  // ---------------------------------------------------------------- the loops that set fields in place

  /** The element loop of a string slice, building the slice that replaces it. */
  method RenderSlice(e: Engine, ss: seq<string>, env: Vars) returns (r: Option<seq<string>>)
    ensures r == RenderStrings(e, ss, env)
  {
    var out: seq<string> := [];
    for j := 0 to |ss|
      invariant RenderStrings(e, ss[..j], env) == Some(out)
    {
      assert ss[..j + 1][..j] == ss[..j];
      var rendered := RenderToSlice(e, ss[j], env);
      if rendered.None? {
        SliceFails(e, ss, env, j + 1);
        return None;
      }
      if rendered.value.Some? {
        out := out + rendered.value.value;
      }
    }
    assert ss[..|ss|] == ss;
    return Some(out);
  }

  lemma {:induction false} SliceFails(e: Engine, ss: seq<string>, env: Vars, j: nat)
    requires j <= |ss| && RenderStrings(e, ss[..j], env).None?
    ensures RenderStrings(e, ss, env).None?
  {
    if j == |ss| {
      assert ss[..j] == ss;
    } else {
      assert ss[..|ss| - 1][..j] == ss[..j];
      SliceFails(e, ss[..|ss| - 1], env, j);
    }
  }

  /** The switch of `ProcessJinjaTemplates` on the kind of one field. */
  method ProcessField(e: Engine, f: Field, env: Vars) returns (done: Field, ok: bool)
    ensures (done, ok) == RenderField(e, f, env)
    decreases f
  {
    done, ok := f, true;
    match f {
      case Str(s) =>
        if s != "" {
          var expanded := e.text(s, env);
          if expanded.None? { ok := false; } else { done := Str(expanded.value); }
        }
      case Strs(ss) =>
        var newSlice := RenderSlice(e, ss, env);
        if newSlice.None? { ok := false; } else { done := Strs(newSlice.value); }
      case Rec(fs) =>
        var gs: seq<Field>;
        gs, ok := ProcessFields(e, fs, env);
        done := Rec(gs);
    }
  }

  /** `ProcessJinjaTemplates` on a message: each field set in turn, until one fails. */
  method ProcessFields(e: Engine, fields: seq<Field>, env: Vars) returns (out: seq<Field>, ok: bool)
    ensures (out, ok) == RenderFields(e, fields, env)
    decreases fields
  {
    out, ok := fields, true;
    var i := 0;
    RenderedUpTo(e, fields, out, env, 0);
    while ok && i < |fields|
      invariant 0 <= i <= |fields| == |out|
      invariant ok ==> out[i..] == fields[i..] && RenderFields(e, fields, env) == Continue(e, fields, out, env, i)
      invariant !ok ==> (out, false) == RenderFields(e, fields, env)
    {
      var done: Field;
      done, ok := ProcessField(e, fields[i], env);
      ContinueStep(e, fields, out, env, i);
      out := out[i := done];
      i := i + 1;
    }
    if ok { RenderedUpTo(e, fields, out, env, |fields|); }
  }

  /** The result, when the fields before `i` are done in `out`. */
  ghost function Continue(e: Engine, fields: seq<Field>, out: seq<Field>, env: Vars, i: nat): (seq<Field>, bool)
    requires i <= |fields| == |out|
  {
    (out[..i] + RenderFields(e, fields[i..], env).0, RenderFields(e, fields[i..], env).1)
  }

  lemma RenderedUpTo(e: Engine, fields: seq<Field>, out: seq<Field>, env: Vars, i: nat)
    requires |out| == |fields| && (i == 0 || i == |fields|)
    ensures i == 0 ==> Continue(e, fields, out, env, i) == RenderFields(e, fields, env)
    ensures i == |fields| ==> Continue(e, fields, out, env, i) == (out, true)
  {
    assert fields[0..] == fields && out[..0] == [] && out[..|out|] + [] == out;
    assert out[..0] + RenderFields(e, fields, env).0 == RenderFields(e, fields, env).0;
  }

  lemma ContinueStep(e: Engine, fields: seq<Field>, out: seq<Field>, env: Vars, i: nat)
    requires i < |fields| == |out| && out[i..] == fields[i..]
    ensures var (f, ok) := RenderField(e, fields[i], env);
            && out[i := f][i + 1..] == fields[i + 1..]
            && Continue(e, fields, out, env, i) ==
               if ok then Continue(e, fields, out[i := f], env, i + 1) else (out[i := f], false)
  {
    var (f, ok) := RenderField(e, fields[i], env);
    assert fields[i..][0] == fields[i] && fields[i..][1..] == fields[i + 1..];
    assert out[i := f][..i + 1] == out[..i] + [f];
    assert out[i := f][i + 1..] == out[i..][1..];
    assert out[i := f] == out[..i] + ([f] + fields[i + 1..]);
    var rest := RenderFields(e, fields[i + 1..], env).0;
    assert out[..i] + ([f] + rest) == (out[..i] + [f]) + rest;
  }
}
