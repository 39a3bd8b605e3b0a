/** What rendering gives, in terms of what the engine answers: texts, lists in order, fields one by one. */
module TemplateMeaning {
  import opened Prelude
  import opened Variables
  import opened Templates

  predicate HasOpening(s: string) {
    exists i :: 0 <= i < |s| - 1 && s[i] == '{' && s[i + 1] == '{'
  }

  /** A text field comes out as `out`. */
  predicate TextIs(e: Engine, s: string, env: Vars, out: string) {
    if s == "" then out == "" else e.text(s, env) == Some(out)
  }

  /** An element of a list comes out as the elements `out`. */
  predicate Expands(e: Engine, s: string, env: Vars, out: seq<string>) {
    if !HasOpening(s) then out == [s]
    else
      match e.eval(s, env)
      case Bad => false
      case Nil => out == []
      case Elements(items) => |out| == |items| && forall i :: 0 <= i < |items| ==> items[i] == Text(out[i])
      case Plain => |out| == 1 && e.text(s, env) == Some(out[0])
  }

  predicate Parts(e: Engine, ss: seq<string>, env: Vars, parts: seq<seq<string>>) {
    |parts| == |ss| && forall i :: 0 <= i < |ss| ==> Expands(e, ss[i], env, parts[i])
  }

  function Concat(parts: seq<seq<string>>): seq<string> {
    if parts == [] then [] else Concat(parts[..|parts| - 1]) + parts[|parts| - 1]
  }

  lemma {:induction false} AllTextExactly(items: seq<Value>, ss: seq<string>)
    ensures AllText(items) == Some(ss) <==> |ss| == |items| && forall i :: 0 <= i < |items| ==> items[i] == Text(ss[i])
    decreases |items|
  {
    if items == [] {
      assert ss == [] <==> |ss| == 0;
    } else {
      var n := |items| - 1;
      if |ss| == |items| {
        AllTextExactly(items[..n], ss[..n]);
        assert ss == ss[..n] + [ss[n]];
      }
      if AllText(items).Some? {
        AllTextExactly(items[..n], AllText(items[..n]).value);
      }
    }
  }

  lemma ExpandsExactly(e: Engine, s: string, env: Vars, out: seq<string>)
    ensures Expands(e, s, env, out) <==>
            && RenderToSlice(e, s, env).Some?
            && out == match RenderToSlice(e, s, env).value { case None => [] case Some(ss) => ss }
  {
    assert HasOpening(s) == HasBraces(s);
    if HasOpening(s) && e.eval(s, env).Elements? {
      AllTextExactly(e.eval(s, env).items, out);
    }
  }

  /** A list renders to the expansions of its elements, in order, if each of them has one. */
  lemma {:induction false} ListExactly(e: Engine, ss: seq<string>, env: Vars, out: seq<string>)
    ensures RenderStrings(e, ss, env) == Some(out) <==> exists parts :: Parts(e, ss, env, parts) && out == Concat(parts)
    decreases |ss|
  {
    if RenderStrings(e, ss, env) == Some(out) {
      var parts := PartsOf(e, ss, env);
    }
    if exists parts :: Parts(e, ss, env, parts) && out == Concat(parts) {
      var parts :| Parts(e, ss, env, parts) && out == Concat(parts);
      PartsSuffice(e, ss, env, parts);
    }
  }

  lemma {:induction false} PartsOf(e: Engine, ss: seq<string>, env: Vars) returns (parts: seq<seq<string>>)
    requires RenderStrings(e, ss, env).Some?
    ensures Parts(e, ss, env, parts) && RenderStrings(e, ss, env).value == Concat(parts)
    decreases |ss|
  {
    parts := [];
    if ss != [] {
      var n := |ss| - 1;
      var before := PartsOf(e, ss[..n], env);
      var last := match RenderToSlice(e, ss[n], env).value { case None => [] case Some(more) => more };
      ExpandsExactly(e, ss[n], env, last);
      parts := before + [last];
      assert parts[..n] == before;
      forall i | 0 <= i < |ss| ensures Expands(e, ss[i], env, parts[i]) {
        if i < n { assert Expands(e, ss[..n][i], env, before[i]); }
      }
    }
  }

  lemma {:induction false} PartsSuffice(e: Engine, ss: seq<string>, env: Vars, parts: seq<seq<string>>)
    requires Parts(e, ss, env, parts)
    ensures RenderStrings(e, ss, env) == Some(Concat(parts))
    decreases |ss|
  {
    if ss != [] {
      var n := |ss| - 1;
      forall i | 0 <= i < n ensures Expands(e, ss[..n][i], env, parts[..n][i]) {
        assert Expands(e, ss[i], env, parts[i]);
      }
      PartsSuffice(e, ss[..n], env, parts[..n]);
      assert Expands(e, ss[n], env, parts[n]);
      ExpandsExactly(e, ss[n], env, parts[n]);
      assert Concat(parts[..n]) + [] == Concat(parts[..n]);
    }
  }

  // ---------------------------------------------------------------- fields

  /** Field `f` comes out as `g`. */
  ghost predicate FieldRendered(e: Engine, f: Field, g: Field, env: Vars)
    decreases f
  {
    match f
    case Str(s) => g.Str? && TextIs(e, s, env, g.s)
    case Strs(ss) => g.Strs? && exists parts :: Parts(e, ss, env, parts) && g.ss == Concat(parts)
    case Rec(fs) => g.Rec? && |g.fields| == |fs| && forall i :: 0 <= i < |fs| ==>
        FieldRendered(e, fs[i], g.fields[i], env)
  }

  ghost predicate FieldsRendered(e: Engine, fs: seq<Field>, gs: seq<Field>, env: Vars) {
    |gs| == |fs| && forall i :: 0 <= i < |fs| ==> FieldRendered(e, fs[i], gs[i], env)
  }

  lemma {:induction false} FieldExactly(e: Engine, f: Field, g: Field, env: Vars)
    ensures FieldRendered(e, f, g, env) <==> RenderField(e, f, env) == (g, true)
    decreases f, 1
  {
    match f {
      case Str(s) =>
      case Strs(ss) =>
        if g.Strs? { ListExactly(e, ss, env, g.ss); }
      case Rec(fs) =>
        if g.Rec? { FieldsExactly(e, fs, g.fields, env); }
    }
  }

  /** A message renders, to `gs`, if and only if each of its fields does. */
  lemma {:induction false} FieldsExactly(e: Engine, fs: seq<Field>, gs: seq<Field>, env: Vars)
    ensures FieldsRendered(e, fs, gs, env) <==> RenderFields(e, fs, env) == (gs, true)
    decreases fs, 0
  {
    if fs != [] && gs != [] {
      FieldExactly(e, fs[0], gs[0], env);
      FieldsExactly(e, fs[1..], gs[1..], env);
      FieldsSplit(e, fs, gs, env);
      assert gs == [gs[0]] + gs[1..];
    }
  }

  lemma FieldsSplit(e: Engine, fs: seq<Field>, gs: seq<Field>, env: Vars)
    requires fs != [] && gs != []
    ensures FieldsRendered(e, fs, gs, env) <==>
            FieldRendered(e, fs[0], gs[0], env) && FieldsRendered(e, fs[1..], gs[1..], env)
  {
    if FieldRendered(e, fs[0], gs[0], env) && FieldsRendered(e, fs[1..], gs[1..], env) {
      forall i | 0 <= i < |fs| ensures FieldRendered(e, fs[i], gs[i], env) {
        if i > 0 { assert FieldRendered(e, fs[1..][i - 1], gs[1..][i - 1], env); }
      }
    }
    if FieldsRendered(e, fs, gs, env) {
      forall i | 0 <= i < |fs[1..]| ensures FieldRendered(e, fs[1..][i], gs[1..][i], env) {
        assert FieldRendered(e, fs[i + 1], gs[i + 1], env);
      }
    }
  }

  /** When a message does not render, the fields before the one at fault are rendered and those after it untouched. */
  lemma {:induction false} FieldsStop(e: Engine, fs: seq<Field>, env: Vars) returns (k: nat)
    requires !RenderFields(e, fs, env).1
    ensures k < |fs| && var out := RenderFields(e, fs, env).0;
            && FieldsRendered(e, fs[..k], out[..k], env)
            && (forall g :: !FieldRendered(e, fs[k], g, env))
            && out[k + 1..] == fs[k + 1..]
            && (!fs[k].Rec? ==> out[k] == fs[k])
  {
    var out := RenderFields(e, fs, env).0;
    if !RenderField(e, fs[0], env).1 {
      k := 0;
      forall g ensures !FieldRendered(e, fs[0], g, env) { FieldExactly(e, fs[0], g, env); }
    } else {
      var j := FieldsStop(e, fs[1..], env);
      k := j + 1;
      FieldExactly(e, fs[0], out[0], env);
      assert out[1..] == RenderFields(e, fs[1..], env).0;
      assert fs[..k][1..] == fs[1..][..j] && out[..k][1..] == out[1..][..j];
      FieldsSplit(e, fs[..k], out[..k], env);
      assert out[k + 1..] == out[1..][j + 1..] && fs[k + 1..] == fs[1..][j + 1..];
    }
  }
}
