/**
 The inventory: a tree of groups whose children are held in maps, so every traversal visits
 siblings in an arbitrary order.
 */
module Inventory {
  import opened Variables

  datatype Group = Group(hosts: map<string, Vars>, vars: Vars, children: map<string, Group>)

  /** The top-level groups, seen as the children of a group of their own without hosts or variables. */
  function Top(groups: map<string, Group>): Group {
    Group(map[], map[], groups)
  }

  // ---------------------------------------------------------------- the tree

  /** `d` is `g` or a descendant of it. */
  ghost predicate Within(g: Group, d: Group)
    decreases g
  {
    d == g || exists c :: c in g.children && Within(g.children[c], d)
  }

  /** `d` is a proper descendant of `g`. */
  ghost predicate Below(g: Group, d: Group) {
    exists c :: c in g.children && Within(g.children[c], d)
  }

  /** `d` is in the tree of `g`, itself called `name`, under the name `dname`. */
  ghost predicate Named(name: string, g: Group, dname: string, d: Group)
    decreases g
  {
    (dname == name && d == g) || exists c :: c in g.children && Named(c, g.children[c], dname, d)
  }

  // ---------------------------------------------------------------- membership

  /** A group hosts a node itself or through a descendant. */
  ghost predicate Member(g: Group, node: string)
    decreases g
  {
    node in g.hosts || exists c :: c in g.children && Member(g.children[c], node)
  }

  /** `x` is the name of a group of the tree that has `node` as a member. */
  ghost predicate InGroup(name: string, g: Group, node: string, x: string)
    decreases g
  {
    (x == name && Member(g, node)) || exists c :: c in g.children && InGroup(c, g.children[c], node, x)
  }

  method All(g: Group) returns (all: set<string>)
    ensures forall n :: n in all <==> Member(g, n)
    decreases g
  {
    all := g.hosts.Keys;
    var left := g.children.Keys;
    while left != {}
      invariant left <= g.children.Keys
      invariant forall n :: n in all <==>
          n in g.hosts || exists c :: c in g.children && c !in left && Member(g.children[c], n)
    {
      var c :| c in left;
      var below := All(g.children[c]);
      all := all + below;
      left := left - {c};
    }
  }

  /** `All` of an inventory. */
  method AllNodes(groups: map<string, Group>) returns (all: set<string>)
    ensures forall n :: n in all <==> exists c :: c in groups && Member(groups[c], n)
  {
    all := {};
    var left := groups.Keys;
    while left != {}
      invariant left <= groups.Keys
      invariant forall n :: n in all <==> exists c :: c in groups && c !in left && Member(groups[c], n)
    {
      var c :| c in left;
      var below := All(groups[c]);
      all := all + below;
      left := left - {c};
    }
  }

  method Find(name: string, g: Group, node: string) returns (groups: set<string>)
    ensures forall x :: x in groups <==> InGroup(name, g, node, x)
    ensures groups != {} <==> Member(g, node)
    decreases g
  {
    groups := {};
    if node in g.hosts {
      groups := groups + {name};
    }
    var left := g.children.Keys;
    while left != {}
      invariant left <= g.children.Keys
      invariant forall x :: x in groups <==> FoundSoFar(name, g, node, left, x)
    {
      var c :| c in left;
      var below := Find(c, g.children[c], node);
      FindOneMore(name, g, node, left, c);
      groups := groups + below;
      if below != {} {
        groups := groups + {name};
      }
      left := left - {c};
    }
    FindComplete(name, g, node);
    FoundIffMember(name, g, node);
    if Member(g, node) { assert InGroup(name, g, node, name); }
  }

  /** What `Find` has collected once only the children in `left` remain. */
  ghost predicate FoundSoFar(name: string, g: Group, node: string, left: set<string>, x: string) {
    || (x == name && (node in g.hosts || exists c :: c in g.children && c !in left && Member(g.children[c], node)))
    || exists c :: c in g.children && c !in left && InGroup(c, g.children[c], node, x)
  }

  lemma FindOneMore(name: string, g: Group, node: string, left: set<string>, c: string)
    requires c in left && c in g.children
    ensures forall x :: FoundSoFar(name, g, node, left - {c}, x) <==>
              FoundSoFar(name, g, node, left, x) || InGroup(c, g.children[c], node, x)
                  || (x == name && Member(g.children[c], node))
  {}

  lemma FindComplete(name: string, g: Group, node: string)
    ensures forall x :: FoundSoFar(name, g, node, {}, x) <==> InGroup(name, g, node, x)
  {}

  /** `Find` of an inventory: every node is in the group `all`. */
  method FindIn(groups: map<string, Group>, node: string) returns (found: set<string>)
    ensures forall x :: x in found <==> x == "all" || exists c :: c in groups && InGroup(c, groups[c], node, x)
  {
    found := {"all"};
    var left := groups.Keys;
    while left != {}
      invariant left <= groups.Keys
      invariant forall x :: x in found <==>
          x == "all" || exists c :: c in groups && c !in left && InGroup(c, groups[c], node, x)
    {
      var c :| c in left;
      var below := Find(c, groups[c], node);
      found := found + below;
      left := left - {c};
    }
  }

  lemma {:induction false} FoundAreMembers(name: string, g: Group, node: string, x: string)
    requires InGroup(name, g, node, x)
    ensures Member(g, node)
    decreases g
  {
    if !(x == name && Member(g, node)) {
      var c :| c in g.children && InGroup(c, g.children[c], node, x);
      FoundAreMembers(c, g.children[c], node, x);
    }
  }

  /** Something is found exactly for the members of the group. */
  lemma FoundIffMember(name: string, g: Group, node: string)
    ensures (exists x :: InGroup(name, g, node, x)) <==> Member(g, node)
  {
    if Member(g, node) {
      assert InGroup(name, g, node, name);
    }
    forall x | InGroup(name, g, node, x) ensures Member(g, node) {
      FoundAreMembers(name, g, node, x);
    }
  }

  lemma {:induction false} NamedAreFound(name: string, g: Group, node: string, x: string, d: Group)
    requires Named(name, g, x, d) && Member(d, node)
    ensures InGroup(name, g, node, x)
    decreases g
  {
    if !(x == name && d == g) {
      var c :| c in g.children && Named(c, g.children[c], x, d);
      NamedAreFound(c, g.children[c], node, x, d);
    }
  }

  ghost predicate NamedMember(name: string, g: Group, x: string, d: Group, node: string) {
    Named(name, g, x, d) && Member(d, node)
  }

  lemma {:induction false} FoundAreNamed(name: string, g: Group, node: string, x: string) returns (d: Group)
    requires InGroup(name, g, node, x)
    ensures NamedMember(name, g, x, d, node)
    decreases g
  {
    if x == name && Member(g, node) {
      d := g;
    } else {
      var c :| c in g.children && InGroup(c, g.children[c], node, x);
      d := FoundAreNamed(c, g.children[c], node, x);
    }
  }

  /** A name is found exactly when a group so called, somewhere in the tree, has the node as a member. */
  lemma FoundIffNamed(name: string, g: Group, node: string, x: string)
    ensures InGroup(name, g, node, x) <==> exists d :: NamedMember(name, g, x, d, node)
  {
    if InGroup(name, g, node, x) {
      var d := FoundAreNamed(name, g, node, x);
    }
    forall d | NamedMember(name, g, x, d, node) ensures InGroup(name, g, node, x) {
      NamedAreFound(name, g, node, x, d);
    }
  }

  /** Membership is closed under ancestors. */
  lemma {:induction false} MemberOfAncestors(g: Group, d: Group, node: string)
    requires Within(g, d) && Member(d, node)
    ensures Member(g, node)
    decreases g
  {
    if d != g {
      var c :| c in g.children && Within(g.children[c], d);
      MemberOfAncestors(g.children[c], d, node);
    }
  }

  /** The members of a group are the hosts of the group and of its descendants. */
  lemma {:induction false} MembersExactly(g: Group, node: string)
    ensures Member(g, node) <==> exists d :: Within(g, d) && node in d.hosts
    decreases g
  {
    if Member(g, node) {
      var d := HostOf(g, node);
    }
    if exists d :: Within(g, d) && node in d.hosts {
      var d :| Within(g, d) && node in d.hosts;
      assert Member(d, node);
      MemberOfAncestors(g, d, node);
    }
  }

  lemma {:induction false} HostOf(g: Group, node: string) returns (d: Group)
    requires Member(g, node)
    ensures Within(g, d) && node in d.hosts
    decreases g
  {
    d := g;
    if node !in g.hosts {
      var c :| c in g.children && Member(g.children[c], node);
      d := HostOf(g.children[c], node);
    }
  }
}
