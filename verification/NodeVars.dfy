/**
 The variables an inventory gives a node. Siblings are merged in map order, which Go leaves open,
 so the outcome is one of several; this module says which ones, and when there is only one.
 */
module NodeVars {
  import opened Variables
  import opened Inventory

  /** The two maps `NodeVars` keeps apart, because host variables override those of every group. */
  datatype Pair = Pair(host: Vars, group: Vars)

  // ---------------------------------------------------------------- the outcomes, order by order

  const NOTHING := Pair(map[], map[])

  function Plus(p: Pair, r: Pair): Pair {
    Pair(p.host + r.host, p.group + r.group)
  }

  function OwnHost(g: Group, node: string): Vars {
    if node in g.hosts then g.hosts[node] else map[]
  }

  function OwnGroup(g: Group, node: string): Vars {
    if node in g.hosts then g.vars else map[]
  }

  /** A group's result from what its children came to. */
  function Finish(g: Group, node: string, below: Pair): Pair {
    Pair(OwnHost(g, node) + below.host,
         OwnGroup(g, node) + (if below.group != map[] then g.vars + below.group else map[]))
  }

  /** Merging outcomes of the children in `keys`, in some order, comes to `p`. */
  ghost predicate Merging(g: Group, node: string, keys: set<string>, p: Pair)
    decreases g, 0, |keys|
  {
    if keys == {} then p == NOTHING
    else exists c, before, r ::
      && c in keys && c in g.children
      && Outcome(g.children[c], node, r)
      && Merging(g, node, keys - {c}, before)
      && p == Plus(before, r)
  }

  /** Some iteration order, at every level, makes `NodeVars` return `r`. */
  ghost predicate Outcome(g: Group, node: string, r: Pair)
    decreases g, 1, 0
  {
    exists below :: Merging(g, node, g.children.Keys, below) && r == Finish(g, node, below)
  }

  lemma MergeOneMore(g: Group, node: string, keys: set<string>, p: Pair, c: string, r: Pair)
    requires Merging(g, node, keys, p) && c in g.children && c !in keys && Outcome(g.children[c], node, r)
    ensures Merging(g, node, keys + {c}, Plus(p, r))
  {
    assert keys + {c} - {c} == keys;
  }

  method NodeVars(g: Group, node: string) returns (hostVars: Vars, groupVars: Vars)
    ensures Outcome(g, node, Pair(hostVars, groupVars))
    decreases g
  {
    groupVars := map[];
    hostVars := map[];
    var childrenVars: Vars := map[];
    if node in g.hosts {
      hostVars := hostVars + g.hosts[node];
      groupVars := groupVars + g.vars;
    }
    OwnMaps(g, node);
    assert hostVars == OwnHost(g, node) && groupVars == OwnGroup(g, node);
    MergeWithNothing(OwnHost(g, node));
    var left := g.children.Keys;
    ghost var below, seen := NOTHING, {};
    while left != {}
      invariant seen + left == g.children.Keys && seen !! left
      invariant Merging(g, node, seen, below)
      invariant hostVars == OwnHost(g, node) + below.host
      invariant childrenVars == below.group
    {
      var c :| c in left;
      var hostInChild, groupInChild := NodeVars(g.children[c], node);
      ChildMerged(g, node, seen, below, c, Pair(hostInChild, groupInChild));
      below := Plus(below, Pair(hostInChild, groupInChild));
      hostVars := hostVars + hostInChild;
      childrenVars := childrenVars + groupInChild;
      left, seen := left - {c}, seen + {c};
    }
    OutcomeOf(g, node, below);
    if childrenVars != map[] {
      groupVars := groupVars + g.vars;
      groupVars := groupVars + childrenVars;
    }
  }

  lemma OwnMaps(g: Group, node: string)
    ensures node in g.hosts ==> map[] + g.hosts[node] == OwnHost(g, node) && map[] + g.vars == OwnGroup(g, node)
  {}

  lemma ChildMerged(g: Group, node: string, seen: set<string>, below: Pair, c: string, r: Pair)
    requires Merging(g, node, seen, below) && c in g.children && c !in seen && Outcome(g.children[c], node, r)
    ensures Merging(g, node, seen + {c}, Plus(below, r))
    ensures OwnHost(g, node) + below.host + r.host == OwnHost(g, node) + Plus(below, r).host
  {
    MergeOneMore(g, node, seen, below, c, r);
    MergeIsAssociative(OwnHost(g, node), below.host, r.host);
  }

  lemma MergeWithNothing(a: Vars)
    ensures a + map[] == a && map[] + a == a
  {}

  lemma MergeIsAssociative(a: Vars, b: Vars, c: Vars)
    ensures (a + b) + c == a + (b + c)
  {}

  lemma OutcomeOf(g: Group, node: string, below: Pair)
    requires Merging(g, node, g.children.Keys, below)
    ensures Outcome(g, node, Finish(g, node, below))
    ensures Finish(g, node, below) ==
            Pair(OwnHost(g, node) + below.host,
                 if below.group == map[] then OwnGroup(g, node) else OwnGroup(g, node) + g.vars + below.group)
  {
    MergeWithNothing(OwnGroup(g, node));
    MergeIsAssociative(OwnGroup(g, node), g.vars, below.group);
  }

  /** `NodeVars` of an inventory: the host's own variables over those of its groups. */
  ghost predicate Result(groups: map<string, Group>, node: string, r: Vars) {
    exists p :: Outcome(Top(groups), node, p) && r == p.group + p.host
  }

  method InventoryNodeVars(groups: map<string, Group>, node: string) returns (r: Vars)
    ensures Result(groups, node, r)
  {
    var hostVars: Vars, groupVars: Vars := map[], map[];
    var left := groups.Keys;
    ghost var below, seen := NOTHING, {};
    while left != {}
      invariant seen + left == groups.Keys && seen !! left
      invariant Merging(Top(groups), node, seen, below)
      invariant hostVars == below.host && groupVars == below.group
    {
      var c :| c in left;
      var h, v := NodeVars(groups[c], node);
      MergeOneMore(Top(groups), node, seen, below, c, Pair(h, v));
      below := Plus(below, Pair(h, v));
      hostVars := hostVars + h;
      groupVars := groupVars + v;
      left, seen := left - {c}, seen + {c};
    }
    OutcomeOf(Top(groups), node, below);
    FinishTop(groups, node, below);
    return groupVars + hostVars;
  }

  lemma FinishTop(groups: map<string, Group>, node: string, below: Pair)
    ensures Finish(Top(groups), node, below) == below
  {}

  // ---------------------------------------------------------------- which values a key can get

  /** The host entry for `node`, here or below, has the key. */
  ghost predicate HasHostKey(g: Group, node: string, k: string)
    decreases g
  {
    k in OwnHost(g, node) || exists c :: c in g.children && HasHostKey(g.children[c], node, k)
  }

  ghost predicate HostKeyBelow(g: Group, node: string, k: string) {
    exists c :: c in g.children && HasHostKey(g.children[c], node, k)
  }

  /** `x` is a host value the key can get: a child's if any child has the key, else the group's own. */
  ghost predicate HostVal(g: Group, node: string, k: string, x: Value)
    decreases g
  {
    if HostKeyBelow(g, node, k) then exists c :: c in g.children && HostVal(g.children[c], node, k, x)
    else k in OwnHost(g, node) && OwnHost(g, node)[k] == x
  }

  /** Here or below, a group that hosts the node itself has variables. */
  ghost predicate HasGroupVars(g: Group, node: string)
    decreases g
  {
    (node in g.hosts && g.vars != map[]) || exists c :: c in g.children && HasGroupVars(g.children[c], node)
  }

  ghost predicate GroupVarsBelow(g: Group, node: string) {
    exists c :: c in g.children && HasGroupVars(g.children[c], node)
  }

  /** The variables of `g` apply to the node. */
  ghost predicate Reaches(g: Group, node: string) {
    node in g.hosts || GroupVarsBelow(g, node)
  }

  ghost predicate HasGroupKey(g: Group, node: string, k: string)
    decreases g
  {
    (Reaches(g, node) && k in g.vars) || exists c :: c in g.children && HasGroupKey(g.children[c], node, k)
  }

  ghost predicate GroupKeyBelow(g: Group, node: string, k: string) {
    exists c :: c in g.children && HasGroupKey(g.children[c], node, k)
  }

  /** `x` is a group value the key can get: a child's if any child has the key, else the group's own. */
  ghost predicate GroupVal(g: Group, node: string, k: string, x: Value)
    decreases g
  {
    if GroupKeyBelow(g, node, k) then exists c :: c in g.children && GroupVal(g.children[c], node, k, x)
    else Reaches(g, node) && k in g.vars && g.vars[k] == x
  }

  // ---------------------------------------------------------------- every outcome takes its values from there

  /** Some child in `keys` has the key in its host entry. */
  ghost predicate HostKeyIn(g: Group, node: string, keys: set<string>, k: string) {
    exists c :: c in keys && c in g.children && HasHostKey(g.children[c], node, k)
  }

  ghost predicate HostValIn(g: Group, node: string, keys: set<string>, k: string, x: Value) {
    exists c :: c in keys && c in g.children && HostVal(g.children[c], node, k, x)
  }

  lemma {:induction false} MergedHost(g: Group, node: string, keys: set<string>, p: Pair, k: string)
    requires Merging(g, node, keys, p)
    ensures k in p.host <==> HostKeyIn(g, node, keys, k)
    ensures k in p.host ==> HostValIn(g, node, keys, k, p.host[k])
    decreases g, 0, |keys|
  {
    if keys != {} {
      var c, before, r :| c in keys && c in g.children && Outcome(g.children[c], node, r)
        && Merging(g, node, keys - {c}, before) && p == Plus(before, r);
      HostSound(g.children[c], node, r, k);
      MergedHost(g, node, keys - {c}, before, k);
      if HostKeyIn(g, node, keys, k) && !HasHostKey(g.children[c], node, k) {
        var d :| d in keys && d in g.children && HasHostKey(g.children[d], node, k);
        assert d in keys - {c};
      }
    }
  }

  lemma {:induction false} HostSound(g: Group, node: string, r: Pair, k: string)
    requires Outcome(g, node, r)
    ensures k in r.host <==> HasHostKey(g, node, k)
    ensures k in r.host ==> HostVal(g, node, k, r.host[k])
    decreases g, 1, 0
  {
    var below :| Merging(g, node, g.children.Keys, below) && r == Finish(g, node, below);
    MergedHost(g, node, g.children.Keys, below, k);
    assert HostKeyIn(g, node, g.children.Keys, k) <==> HostKeyBelow(g, node, k);
  }

  ghost predicate GroupVarsIn(g: Group, node: string, keys: set<string>) {
    exists c :: c in keys && c in g.children && HasGroupVars(g.children[c], node)
  }

  ghost predicate GroupKeyIn(g: Group, node: string, keys: set<string>, k: string) {
    exists c :: c in keys && c in g.children && HasGroupKey(g.children[c], node, k)
  }

  ghost predicate GroupValIn(g: Group, node: string, keys: set<string>, k: string, x: Value) {
    exists c :: c in keys && c in g.children && GroupVal(g.children[c], node, k, x)
  }

  lemma {:induction false} MergedGroup(g: Group, node: string, keys: set<string>, p: Pair, k: string)
    requires Merging(g, node, keys, p)
    ensures p.group != map[] <==> GroupVarsIn(g, node, keys)
    ensures k in p.group <==> GroupKeyIn(g, node, keys, k)
    ensures k in p.group ==> GroupValIn(g, node, keys, k, p.group[k])
    decreases g, 0, |keys|
  {
    if keys != {} {
      var c, before, r :| c in keys && c in g.children && Outcome(g.children[c], node, r)
        && Merging(g, node, keys - {c}, before) && p == Plus(before, r);
      GroupSound(g.children[c], node, r, k);
      MergedGroup(g, node, keys - {c}, before, k);
      assert p.group != map[] <==> before.group != map[] || r.group != map[] by {
        assert p.group.Keys == before.group.Keys + r.group.Keys;
        assert before.group.Keys == {} ==> before.group == map[];
        assert r.group.Keys == {} ==> r.group == map[];
      }
      SplitKeys(g, node, keys, c, k);
    }
  }

  lemma SplitKeys(g: Group, node: string, keys: set<string>, c: string, k: string)
    requires c in keys && c in g.children
    ensures GroupVarsIn(g, node, keys) <==> GroupVarsIn(g, node, keys - {c}) || HasGroupVars(g.children[c], node)
    ensures GroupKeyIn(g, node, keys, k) <==> GroupKeyIn(g, node, keys - {c}, k) || HasGroupKey(g.children[c], node, k)
  {
    if GroupVarsIn(g, node, keys) {
      var d :| d in keys && d in g.children && HasGroupVars(g.children[d], node);
      assert d == c || d in keys - {c};
    }
    if GroupKeyIn(g, node, keys, k) {
      var d :| d in keys && d in g.children && HasGroupKey(g.children[d], node, k);
      assert d == c || d in keys - {c};
    }
  }

  lemma {:induction false} GroupSound(g: Group, node: string, r: Pair, k: string)
    requires Outcome(g, node, r)
    ensures r.group != map[] <==> HasGroupVars(g, node)
    ensures k in r.group <==> HasGroupKey(g, node, k)
    ensures k in r.group ==> GroupVal(g, node, k, r.group[k])
    decreases g, 1, 0
  {
    var below :| Merging(g, node, g.children.Keys, below) && r == Finish(g, node, below);
    MergedGroup(g, node, g.children.Keys, below, k);
    assert GroupVarsIn(g, node, g.children.Keys) <==> GroupVarsBelow(g, node);
    assert GroupKeyIn(g, node, g.children.Keys, k) <==> GroupKeyBelow(g, node, k);
    FinishGroup(g, node, below);
    if GroupKeyBelow(g, node, k) {
      assert k in below.group;
    }
  }

  lemma FinishGroup(g: Group, node: string, below: Pair)
    ensures Finish(g, node, below).group ==
            if below.group != map[] then g.vars + below.group else if node in g.hosts then g.vars else map[]
    ensures Finish(g, node, below).group == map[] <==> below.group == map[] && (node !in g.hosts || g.vars == map[])
  {
    if below.group != map[] {
      var k :| k in below.group;
      assert k in Finish(g, node, below).group;
    }
  }

  // ---------------------------------------------------------------- and every such value is some outcome's

  lemma {:induction false} OutcomeExists(g: Group, node: string) returns (r: Pair)
    ensures Outcome(g, node, r)
    decreases g, 1, 0
  {
    var below := MergingExists(g, node, g.children.Keys);
    r := Finish(g, node, below);
  }

  lemma {:induction false} MergingExists(g: Group, node: string, keys: set<string>) returns (p: Pair)
    requires keys <= g.children.Keys
    ensures Merging(g, node, keys, p)
    decreases g, 0, |keys|
  {
    if keys == {} {
      p := NOTHING;
    } else {
      var c :| c in keys;
      var before := MergingExists(g, node, keys - {c});
      var r := OutcomeExists(g.children[c], node);
      p := Plus(before, r);
      MergeLastOne(g, node, keys, before, c, r);
    }
  }

  lemma MergeLastOne(g: Group, node: string, keys: set<string>, p: Pair, c: string, r: Pair)
    requires c in keys && c in g.children && Merging(g, node, keys - {c}, p) && Outcome(g.children[c], node, r)
    ensures Merging(g, node, keys, Plus(p, r))
  {
    assert keys - {c} + {c} == keys;
    MergeOneMore(g, node, keys - {c}, p, c, r);
  }

  /** Merging a given child last makes its values win. */
  lemma LastChildWins(g: Group, node: string, c: string, rc: Pair) returns (r: Pair)
    requires c in g.children && Outcome(g.children[c], node, rc)
    ensures Outcome(g, node, r)
    ensures forall k :: k in rc.host ==> k in r.host && r.host[k] == rc.host[k]
    ensures forall k :: k in rc.group ==> k in r.group && r.group[k] == rc.group[k]
  {
    var keys := g.children.Keys - {c};
    var p := MergingExists(g, node, keys);
    MergeOneMore(g, node, keys, p, c, rc);
    assert keys + {c} == g.children.Keys;
    r := Finish(g, node, Plus(p, rc));
    FinishGroup(g, node, Plus(p, rc));
  }

  lemma {:induction false} HostComplete(g: Group, node: string, k: string, x: Value) returns (r: Pair)
    requires HostVal(g, node, k, x)
    ensures Outcome(g, node, r) && k in r.host && r.host[k] == x
    decreases g
  {
    if HostKeyBelow(g, node, k) {
      var c :| c in g.children && HostVal(g.children[c], node, k, x);
      var rc := HostComplete(g.children[c], node, k, x);
      r := LastChildWins(g, node, c, rc);
    } else {
      r := OutcomeExists(g, node);
      HostSound(g, node, r, k);
    }
  }

  lemma {:induction false} GroupComplete(g: Group, node: string, k: string, x: Value) returns (r: Pair)
    requires GroupVal(g, node, k, x)
    ensures Outcome(g, node, r) && k in r.group && r.group[k] == x
    decreases g
  {
    if GroupKeyBelow(g, node, k) {
      var c :| c in g.children && GroupVal(g.children[c], node, k, x);
      var rc := GroupComplete(g.children[c], node, k, x);
      r := LastChildWins(g, node, c, rc);
    } else {
      r := OutcomeExists(g, node);
      GroupSound(g, node, r, k);
    }
  }

  // ---------------------------------------------------------------- order independence

  /** `x` is a value the inventory can give the node for the key: host entries override groups. */
  ghost predicate FinalVal(groups: map<string, Group>, node: string, k: string, x: Value) {
    if HasHostKey(Top(groups), node, k) then HostVal(Top(groups), node, k, x) else GroupVal(Top(groups), node, k, x)
  }

  lemma ResultsAreFinalVals(groups: map<string, Group>, node: string, r: Vars, k: string)
    requires Result(groups, node, r)
    ensures k in r <==> HasHostKey(Top(groups), node, k) || HasGroupKey(Top(groups), node, k)
    ensures k in r ==> FinalVal(groups, node, k, r[k])
  {
    var p :| Outcome(Top(groups), node, p) && r == p.group + p.host;
    HostSound(Top(groups), node, p, k);
    GroupSound(Top(groups), node, p, k);
  }

  lemma FinalValsAreResults(groups: map<string, Group>, node: string, k: string, x: Value) returns (r: Vars)
    requires FinalVal(groups, node, k, x)
    ensures Result(groups, node, r) && k in r && r[k] == x
  {
    var p;
    if HasHostKey(Top(groups), node, k) {
      p := HostComplete(Top(groups), node, k, x);
    } else {
      p := GroupComplete(Top(groups), node, k, x);
      HostSound(Top(groups), node, p, k);
    }
    r := p.group + p.host;
  }

  ghost predicate OneResult(groups: map<string, Group>, node: string) {
    forall r, s :: Result(groups, node, r) && Result(groups, node, s) ==> r == s
  }

  ghost predicate OneValueEach(groups: map<string, Group>, node: string) {
    forall k, x, y :: FinalVal(groups, node, k, x) && FinalVal(groups, node, k, y) ==> x == y
  }

  /** The variables of a node do not depend on map order exactly when no key has two values to choose from. */
  lemma OrderIndependence(groups: map<string, Group>, node: string)
    ensures OneResult(groups, node) <==> OneValueEach(groups, node)
  {
    if OneResult(groups, node) {
      forall k, x, y | FinalVal(groups, node, k, x) && FinalVal(groups, node, k, y) ensures x == y {
        var r := FinalValsAreResults(groups, node, k, x);
        var s := FinalValsAreResults(groups, node, k, y);
        assert r == s;
      }
    }
    if OneValueEach(groups, node) {
      forall r, s | Result(groups, node, r) && Result(groups, node, s) ensures r == s {
        forall k ensures k in r <==> k in s {
          ResultsAreFinalVals(groups, node, r, k);
          ResultsAreFinalVals(groups, node, s, k);
        }
        forall k | k in r ensures r[k] == s[k] {
          ResultsAreFinalVals(groups, node, r, k);
          ResultsAreFinalVals(groups, node, s, k);
        }
      }
    }
  }

  /** At every level, different children never offer different values for a key. */
  ghost predicate SiblingsAgree(g: Group, node: string)
    decreases g
  {
    && (forall c, d, k, x, y ::
          c in g.children && d in g.children && c != d && HostVal(g.children[c], node, k, x)
              && HostVal(g.children[d], node, k, y)
          ==> x == y)
    && (forall c, d, k, x, y ::
          c in g.children && d in g.children && c != d && GroupVal(g.children[c], node, k, x)
              && GroupVal(g.children[d], node, k, y)
          ==> x == y)
    && (forall c :: c in g.children ==> SiblingsAgree(g.children[c], node))
  }

  lemma {:induction false} AgreeingHostVals(g: Group, node: string, k: string, x: Value, y: Value)
    requires SiblingsAgree(g, node) && HostVal(g, node, k, x) && HostVal(g, node, k, y)
    ensures x == y
    decreases g
  {
    if HostKeyBelow(g, node, k) {
      var c :| c in g.children && HostVal(g.children[c], node, k, x);
      var d :| d in g.children && HostVal(g.children[d], node, k, y);
      if c == d { AgreeingHostVals(g.children[c], node, k, x, y); }
    }
  }

  lemma {:induction false} AgreeingGroupVals(g: Group, node: string, k: string, x: Value, y: Value)
    requires SiblingsAgree(g, node) && GroupVal(g, node, k, x) && GroupVal(g, node, k, y)
    ensures x == y
    decreases g
  {
    if GroupKeyBelow(g, node, k) {
      var c :| c in g.children && GroupVal(g.children[c], node, k, x);
      var d :| d in g.children && GroupVal(g.children[d], node, k, y);
      if c == d { AgreeingGroupVals(g.children[c], node, k, x, y); }
    }
  }

  /** Siblings that agree on the keys they share make the result unique. */
  lemma AgreementIsEnough(groups: map<string, Group>, node: string)
    requires SiblingsAgree(Top(groups), node)
    ensures OneResult(groups, node)
  {
    forall k, x, y | FinalVal(groups, node, k, x) && FinalVal(groups, node, k, y) ensures x == y {
      if HasHostKey(Top(groups), node, k) {
        AgreeingHostVals(Top(groups), node, k, x, y);
      } else {
        AgreeingGroupVals(Top(groups), node, k, x, y);
      }
    }
    OrderIndependence(groups, node);
  }

  // ---------------------------------------------------------------- inheritance and precedence

  /** `d` hosts the node itself and has variables. */
  ghost predicate HostsWithVars(d: Group, node: string) {
    node in d.hosts && d.vars != map[]
  }

  lemma {:induction false} HasGroupVarsUp(g: Group, d: Group, node: string)
    requires Within(g, d) && HostsWithVars(d, node)
    ensures HasGroupVars(g, node)
    decreases g
  {
    if d != g {
      var c :| c in g.children && Within(g.children[c], d);
      HasGroupVarsUp(g.children[c], d, node);
    }
  }

  lemma {:induction false} HasGroupVarsDown(g: Group, node: string) returns (d: Group)
    requires HasGroupVars(g, node)
    ensures Within(g, d) && HostsWithVars(d, node)
    decreases g
  {
    if HostsWithVars(g, node) {
      d := g;
    } else {
      var c :| c in g.children && HasGroupVars(g.children[c], node);
      d := HasGroupVarsDown(g.children[c], node);
    }
  }

  /**
   A group's variables apply to a node exactly when the group hosts it directly or some proper
   descendant that hosts it directly has variables of its own.
   */
  lemma Inheritance(g: Group, node: string)
    ensures Reaches(g, node) <==> node in g.hosts || exists d :: Below(g, d) && HostsWithVars(d, node)
  {
    if GroupVarsBelow(g, node) {
      var c :| c in g.children && HasGroupVars(g.children[c], node);
      var d := HasGroupVarsDown(g.children[c], node);
      assert Below(g, d);
    }
    forall d | Below(g, d) && HostsWithVars(d, node) ensures GroupVarsBelow(g, node) {
      var c :| c in g.children && Within(g.children[c], d);
      HasGroupVarsUp(g.children[c], d, node);
    }
  }

  /**
   The rule the comments state, that a member of a child is a member of the parent, holds for the
   variables of a group unless the node is hosted by descendants alone and none of those hosting it
   has variables of its own.
   */
  lemma MembersInherit(g: Group, node: string)
    ensures (Reaches(g, node) <==> Member(g, node)) <==>
            !(Member(g, node) && node !in g.hosts && forall d :: Below(g, d) && node in d.hosts ==> d.vars == map[])
  {
    Inheritance(g, node);
    if GroupVarsBelow(g, node) {
      var c :| c in g.children && HasGroupVars(g.children[c], node);
      var d := HasGroupVarsDown(g.children[c], node);
      HostIsMember(g, d, node);
    }
    if Member(g, node) && node !in g.hosts && !Reaches(g, node) {
      forall d | Below(g, d) && node in d.hosts ensures d.vars == map[] {
        assert !HostsWithVars(d, node);
      }
    }
  }

  lemma HostIsMember(g: Group, d: Group, node: string)
    requires Below(g, d) && node in d.hosts
    ensures Member(g, node)
  {
    var c :| c in g.children && Within(g.children[c], d);
    assert Member(d, node);
    MemberOfAncestors(g.children[c], d, node);
  }

  lemma MemberWithoutInheritance(x: Value)
    ensures var child := Group(map["n" := map[]], map[], map[]);
            var parent := Group(map[], map["k" := x], map["child" := child]);
            Member(parent, "n") && !Reaches(parent, "n") && Outcome(parent, "n", Pair(map[], map[]))
  {
    var child := Group(map["n" := map[]], map[], map[]);
    var parent := Group(map[], map["k" := x], map["child" := child]);
    assert Member(parent.children["child"], "n");
    assert !HasGroupVars(child, "n");
    var r := OutcomeExists(parent, "n");
    forall k ensures k !in r.host {
      HostSound(parent, "n", r, k);
      assert !HasHostKey(child, "n", k);
    }
    GroupSound(parent, "n", r, "k");
    assert !HasGroupVars(parent, "n");
    assert r.host == map[];
  }

  /** `d` gives the node the key, and no proper descendant of `d` does. */
  ghost predicate MostSpecific(g: Group, d: Group, node: string, k: string) {
    && Within(g, d) && Reaches(d, node) && k in d.vars
    && !exists e :: Below(d, e) && Reaches(e, node) && k in e.vars
  }

  lemma {:induction false} GroupKeyUp(g: Group, d: Group, node: string, k: string)
    requires Within(g, d) && Reaches(d, node) && k in d.vars
    ensures HasGroupKey(g, node, k)
    decreases g
  {
    if d != g {
      var c :| c in g.children && Within(g.children[c], d);
      GroupKeyUp(g.children[c], d, node, k);
    }
  }

  lemma {:induction false} GroupKeyDown(g: Group, node: string, k: string) returns (d: Group)
    requires HasGroupKey(g, node, k)
    ensures Within(g, d) && Reaches(d, node) && k in d.vars
    decreases g
  {
    if Reaches(g, node) && k in g.vars {
      d := g;
    } else {
      var c :| c in g.children && HasGroupKey(g.children[c], node, k);
      d := GroupKeyDown(g.children[c], node, k);
    }
  }

  lemma NoGroupKeyBelow(d: Group, node: string, k: string)
    ensures GroupKeyBelow(d, node, k) <==> exists e :: Below(d, e) && Reaches(e, node) && k in e.vars
  {
    if GroupKeyBelow(d, node, k) {
      var c :| c in d.children && HasGroupKey(d.children[c], node, k);
      var e := GroupKeyDown(d.children[c], node, k);
      assert Below(d, e);
    }
    forall e | Below(d, e) && Reaches(e, node) && k in e.vars ensures GroupKeyBelow(d, node, k) {
      var c :| c in d.children && Within(d.children[c], e);
      GroupKeyUp(d.children[c], e, node, k);
    }
  }

  lemma {:induction false} GroupValDown(g: Group, node: string, k: string, x: Value) returns (d: Group)
    requires GroupVal(g, node, k, x)
    ensures MostSpecific(g, d, node, k) && d.vars[k] == x
    decreases g
  {
    if GroupKeyBelow(g, node, k) {
      var c :| c in g.children && GroupVal(g.children[c], node, k, x);
      d := GroupValDown(g.children[c], node, k, x);
    } else {
      d := g;
      NoGroupKeyBelow(g, node, k);
    }
  }

  lemma {:induction false} GroupValUp(g: Group, d: Group, node: string, k: string)
    requires MostSpecific(g, d, node, k)
    ensures GroupVal(g, node, k, d.vars[k])
    decreases g
  {
    NoGroupKeyBelow(d, node, k);
    if d != g {
      var c :| c in g.children && Within(g.children[c], d);
      assert MostSpecific(g.children[c], d, node, k);
      GroupValUp(g.children[c], d, node, k);
      GroupKeyUp(g.children[c], d, node, k);
    }
  }

  ghost predicate GivenBy(g: Group, d: Group, node: string, k: string, x: Value) {
    MostSpecific(g, d, node, k) && d.vars[k] == x
  }

  /** Children override parents: the group values a key can get are those of the most specific groups defining it. */
  lemma MostSpecificGroupWins(g: Group, node: string, k: string, x: Value)
    ensures GroupVal(g, node, k, x) <==> exists d :: GivenBy(g, d, node, k, x)
  {
    if GroupVal(g, node, k, x) {
      var d := GroupValDown(g, node, k, x);
      assert GivenBy(g, d, node, k, x);
    }
    forall d | GivenBy(g, d, node, k, x) ensures GroupVal(g, node, k, x) {
      GroupValUp(g, d, node, k);
    }
  }

  // ---------------------------------------------------------------- a name in the result

  /** The host entry for the node in `d` has the key. */
  predicate HostGives(d: Group, node: string, k: string) {
    node in d.hosts && k in d.hosts[node]
  }

  /** So has the one in `d`, and none in a descendant of `d`. */
  ghost predicate MostSpecificHost(g: Group, d: Group, node: string, k: string) {
    Within(g, d) && HostGives(d, node, k) && !exists e :: Below(d, e) && HostGives(e, node, k)
  }

  lemma {:induction false} HostKeyUp(g: Group, d: Group, node: string, k: string)
    requires Within(g, d) && HostGives(d, node, k)
    ensures HasHostKey(g, node, k)
    decreases g
  {
    if d != g {
      var c :| c in g.children && Within(g.children[c], d);
      HostKeyUp(g.children[c], d, node, k);
    }
  }

  lemma {:induction false} HostKeyDown(g: Group, node: string, k: string) returns (d: Group)
    requires HasHostKey(g, node, k)
    ensures Within(g, d) && HostGives(d, node, k)
    decreases g
  {
    d := g;
    if !HostGives(g, node, k) {
      var c :| c in g.children && HasHostKey(g.children[c], node, k);
      d := HostKeyDown(g.children[c], node, k);
    }
  }

  lemma NoHostKeyBelow(d: Group, node: string, k: string)
    ensures HostKeyBelow(d, node, k) <==> exists e :: Below(d, e) && HostGives(e, node, k)
  {
    if HostKeyBelow(d, node, k) {
      var c :| c in d.children && HasHostKey(d.children[c], node, k);
      var e := HostKeyDown(d.children[c], node, k);
      assert Below(d, e);
    }
    forall e | Below(d, e) && HostGives(e, node, k) ensures HostKeyBelow(d, node, k) {
      var c :| c in d.children && Within(d.children[c], e);
      HostKeyUp(d.children[c], e, node, k);
    }
  }

  lemma {:induction false} HostValDown(g: Group, node: string, k: string, x: Value) returns (d: Group)
    requires HostVal(g, node, k, x)
    ensures MostSpecificHost(g, d, node, k) && d.hosts[node][k] == x
    decreases g
  {
    if HostKeyBelow(g, node, k) {
      var c :| c in g.children && HostVal(g.children[c], node, k, x);
      d := HostValDown(g.children[c], node, k, x);
    } else {
      d := g;
      NoHostKeyBelow(g, node, k);
    }
  }

  /** Some host entry in the inventory has the key. */
  ghost predicate SomeHostGives(groups: map<string, Group>, node: string, k: string) {
    exists d :: Within(Top(groups), d) && HostGives(d, node, k)
  }

  /**
   Where a name in the result comes from: from a host entry for the node, if any group anywhere has
   one that gives it, and then from one that no descendant group overrides; else from the variables
   of a group that apply to the node, and that no descendant group overrides.
   */
  lemma ResultLookup(groups: map<string, Group>, node: string, r: Vars, k: string) returns (d: Group)
    requires Result(groups, node, r)
    ensures SomeHostGives(groups, node, k) ==>
              k in r && MostSpecificHost(Top(groups), d, node, k) && r[k] == d.hosts[node][k]
    ensures !SomeHostGives(groups, node, k) && k in r ==>
              MostSpecific(Top(groups), d, node, k) && r[k] == d.vars[k]
    ensures !SomeHostGives(groups, node, k) && k !in r ==>
              !exists e :: Within(Top(groups), e) && Reaches(e, node) && k in e.vars
  {
    ResultsAreFinalVals(groups, node, r, k);
    d := Top(groups);
    if SomeHostGives(groups, node, k) {
      var e :| Within(Top(groups), e) && HostGives(e, node, k);
      HostKeyUp(Top(groups), e, node, k);
      d := HostValDown(Top(groups), node, k, r[k]);
    } else {
      if HasHostKey(Top(groups), node, k) {
        var e := HostKeyDown(Top(groups), node, k);
        assert false;
      }
      if k in r {
        d := GroupValDown(Top(groups), node, k, r[k]);
      } else if exists e :: Within(Top(groups), e) && Reaches(e, node) && k in e.vars {
        var e :| Within(Top(groups), e) && Reaches(e, node) && k in e.vars;
        GroupKeyUp(Top(groups), e, node, k);
        assert false;
      }
    }
  }
}
