/** Validation of the child Profile graph (restscope/harness/agent_runtime.py). */
module AgentProfiles {
  import opened Indexes

  /** Each Profile's authorised children, in declaration order. */
  type Registry = map<string, seq<string>>

  datatype Verdict = Accepted | CycleAt(name: string) | UnknownProfile(name: string)

  // ---------------------------------------------------------------- meaning

  ghost predicate ChildrenKnown(g: Registry) {
    forall n, c | n in g && c in g[n] :: c in g
  }

  ghost predicate IsPath(g: Registry, p: seq<string>) {
    && p != []
    && (forall i | 0 <= i < |p| :: p[i] in g)
    && (forall i | 0 <= i < |p| - 1 :: p[i + 1] in g[p[i]])
  }

  ghost predicate Returns(g: Registry, p: seq<string>) {
    IsPath(g, p) && |p| >= 2 && p[0] == p[|p| - 1]
  }

  ghost predicate Acyclic(g: Registry) {
    forall p :: !Returns(g, p)
  }

  ghost predicate OnCycle(g: Registry, name: string) {
    exists p :: Returns(g, p) && p[0] == name
  }

  ghost predicate Dangling(g: Registry, name: string) {
    name !in g && exists n | n in g :: name in g[n]
  }

  /** Children come before their parents. */
  ghost predicate ChildrenFirst(g: Registry, order: seq<string>) {
    forall i | 0 <= i < |order| :: order[i] in g && forall c | c in g[order[i]] :: c in order[..i]
  }

  ghost function Members(xs: seq<string>): set<string> {
    set x | x in xs
  }

  // ---------------------------------------------------------------- the depth-first search

  class ProfileSearch {
    const g: Registry
    var visiting: set<string>
    var visited: set<string>
    /** The path of open visits, outermost first. */
    ghost var stack: seq<string>
    /** Finished Profiles in the order their visits ended. */
    ghost var order: seq<string>

    ghost predicate Valid()
      reads this
    {
      && visiting == Members(stack) && visited == Members(order)
      && visiting <= g.Keys
      && (stack == [] || IsPath(g, stack))
      && ChildrenFirst(g, order)
    }

    constructor (g: Registry)
      ensures Valid() && this.g == g && visiting == {} && visited == {} && stack == []
    {
      this.g := g;
      visiting, visited, stack, order := {}, {}, [], [];
    }

    method Visit(name: string) returns (v: Verdict)
      requires Valid() && name in g && (stack == [] || name in g[stack[|stack| - 1]])
      modifies this
      ensures v.Accepted? ==>
                Valid() && stack == old(stack) && visiting == old(visiting) && old(visited) + {name} <= visited
      ensures v.CycleAt? ==> OnCycle(g, v.name)
      ensures v.UnknownProfile? ==> Dangling(g, v.name)
      decreases |g.Keys - visiting|, 0
    {
      hide Valid, OnCycle, Dangling;
      if name in visiting {
        InStack(name);
        return CycleAt(name);
      }
      if name in visited { return Accepted; }
      ghost var open, path := visiting, stack;
      Enter(name);
      v := VisitChildren(name, g[name]);
      if !v.Accepted? { return; }
      assert stack[..|stack| - 1] == path;
      Leave(name);
      assert visiting == open && stack == path;
      return Accepted;
    }

    lemma {:induction false} InStack(name: string)
      requires Valid() && name in visiting && name in g && (stack == [] || name in g[stack[|stack| - 1]])
      ensures OnCycle(g, name)
    {
      hide IsPath, OnCycle;
      StackReturns(g, stack, name);
    }

    method Enter(name: string)
      requires Valid() && name in g && name !in visiting && (stack == [] || name in g[stack[|stack| - 1]])
      modifies this`visiting, this`stack
      ensures Valid() && visiting == old(visiting) + {name} && stack == old(stack) + [name] && name !in old(stack)
      ensures |g.Keys - visiting| < |g.Keys - old(visiting)|
    {
      hide IsPath, ChildrenFirst, Members;
      StackGrows(g, stack, name);
      OneFewer(g.Keys, visiting, name);
      MemberOfLonger(stack, name);
      visiting, stack := visiting + {name}, stack + [name];
    }

    method Leave(name: string)
      requires Valid() && stack != [] && stack[|stack| - 1] == name && name in g && name !in stack[..|stack| - 1]
      requires forall c | c in g[name] :: c in visited
      modifies this
      ensures Valid() && visiting == old(visiting) - {name} && stack == old(stack)[..|old(stack)| - 1]
      ensures visited == old(visited) + {name}
    {
      hide IsPath, ChildrenFirst;
      StackShrinks(g, stack);
      FinishedLast(g, order, name);
      ghost var path := stack[..|stack| - 1];
      assert stack == path + [name];
      MemberOfLonger(path, name);
      MemberOfLonger(order, name);
      visiting, stack := visiting - {name}, path;
      visited, order := visited + {name}, order + [name];
    }

    method VisitChildren(parent: string, children: seq<string>) returns (v: Verdict)
      requires Valid() && stack != [] && stack[|stack| - 1] == parent && parent in g && children == g[parent]
      modifies this
      ensures v.Accepted? ==> Valid() && stack == old(stack) && visiting == old(visiting) && old(visited) <= visited
      ensures v.Accepted? ==> forall c | c in children :: c in visited
      ensures v.CycleAt? ==> OnCycle(g, v.name)
      ensures v.UnknownProfile? ==> Dangling(g, v.name)
      decreases |g.Keys - visiting|, 1
    {
      hide IsPath, ChildrenFirst;
      for i := 0 to |children|
        invariant Valid() && stack == old(stack) && visiting == old(visiting) && old(visited) <= visited
        invariant forall k | 0 <= k < i :: children[k] in visited
      {
        var child := children[i];
        if child !in g { return UnknownProfile(child); }
        v := Visit(child);
        if !v.Accepted? { return; }
      }
      return Accepted;
    }
  }

  /** Accepts exactly the closed acyclic registries, listed children first; a refusal names a real fault. */
  method RejectProfileCycles(g: Registry, names: seq<string>) returns (v: Verdict, ghost order: seq<string>)
    requires forall n :: n in names <==> n in g
    ensures v.Accepted? <==> ChildrenKnown(g) && Acyclic(g)
    ensures v.Accepted? ==> ChildrenFirst(g, order) && forall n | n in g :: n in order
    ensures v.CycleAt? ==> OnCycle(g, v.name)
    ensures v.UnknownProfile? ==> Dangling(g, v.name)
  {
    hide IsPath, ChildrenFirst, Acyclic, OnCycle;
    var search := new ProfileSearch(g);
    order := [];
    for i := 0 to |names|
      invariant fresh(search) && search.g == g && search.Valid() && search.stack == [] && search.visiting == {}
      invariant forall k | 0 <= k < i :: names[k] in search.visited
    {
      v := search.Visit(names[i]);
      if !v.Accepted? {
        if v.CycleAt? { OnCycleIsCyclic(g, v.name); }
        return;
      }
    }
    order := search.order;
    OrderIsEverything(g, order);
    v := Accepted;
  }

  lemma {:induction false} OnCycleIsCyclic(g: Registry, name: string)
    requires OnCycle(g, name)
    ensures !Acyclic(g)
  {
  }

  lemma {:induction false} MemberOfLonger(xs: seq<string>, x: string)
    ensures Members(xs + [x]) == Members(xs) + {x}
    ensures x in Members(xs) <==> x in xs
  {
  }

  lemma {:induction false} StackReturns(g: Registry, stack: seq<string>, name: string)
    requires stack != [] && IsPath(g, stack) && name in stack && name in g[stack[|stack| - 1]] && name in g
    ensures OnCycle(g, name)
  {
    var i :| 0 <= i < |stack| && stack[i] == name;
    assert Returns(g, stack[i..] + [name]);
  }

  lemma {:induction false} StackGrows(g: Registry, stack: seq<string>, name: string)
    requires name in g && (stack == [] || (IsPath(g, stack) && name in g[stack[|stack| - 1]]))
    ensures IsPath(g, stack + [name])
  {
  }

  lemma {:induction false} StackShrinks(g: Registry, stack: seq<string>)
    requires IsPath(g, stack)
    ensures |stack| == 1 || IsPath(g, stack[..|stack| - 1])
  {
  }

  lemma {:induction false} FinishedLast(g: Registry, order: seq<string>, name: string)
    requires ChildrenFirst(g, order) && name in g && forall c | c in g[name] :: c in order
    ensures ChildrenFirst(g, order + [name])
  {
    var next := order + [name];
    forall i | 0 <= i < |next|
      ensures next[i] in g && forall c | c in g[next[i]] :: c in next[..i]
    {
      assert next[..i] == order[..i];
      assert i == |order| ==> order[..i] == order;
    }
  }

  lemma {:induction false} OrderIsEverything(g: Registry, order: seq<string>)
    requires ChildrenFirst(g, order) && forall n | n in g :: n in order
    ensures ChildrenKnown(g) && Acyclic(g)
  {
    forall n, c | n in g && c in g[n]
      ensures c in g
    {
      var i :| 0 <= i < |order| && order[i] == n;
      var j :| 0 <= j < i && order[..i][j] == c;
    }
    forall p
      ensures !Returns(g, p)
    {
      if Returns(g, p) {
        var i :| 0 <= i < |order| && order[i] == p[0];
        NoReturn(g, order, p, i);
      }
    }
  }

  lemma {:induction false} PathDescends(g: Registry, order: seq<string>, p: seq<string>, i: nat)
    requires ChildrenFirst(g, order) && IsPath(g, p) && i <= |order| && p[0] in order[..i]
    ensures p[|p| - 1] in order[..i]
  {
    if |p| > 1 {
      var j :| 0 <= j < i && order[j] == p[0];
      assert p[1] in order[..j];
      PathDescends(g, order, p[1..], i);
    }
  }

  lemma {:induction false} NoReturn(g: Registry, order: seq<string>, p: seq<string>, i: nat)
    requires ChildrenFirst(g, order) && Returns(g, p) && i < |order| && order[i] == p[0]
    ensures false
  {
    assert p[1] in g[p[0]];
    assert p[1] in order[..i];
    assert IsPath(g, p[1..]);
    PathDescends(g, order, p[1..], i);
    var j :| 0 <= j < i && order[j] == p[0];
    NoReturn(g, order, p, j);
  }

  // ---------------------------------------------------------------- the longest configured path

  function Larger(m: nat, n: nat): nat {
    if m < n then n else m
  }

  /** `name` occurs among the first `i` of an order with children first. */
  function Longest(g: Registry, name: string, ghost order: seq<string>, ghost i: nat): nat
    requires ChildrenFirst(g, order) && i <= |order| && name in order[..i]
    decreases i, 0
  {
    if g[name] == [] then 0
    else
      assert forall c | c in g[name] :: c in order[..i - 1] by { ChildrenEarlier(g, order, name, i); }
      1 + LongestOf(g, g[name], order, i - 1)
  }

  function LongestOf(g: Registry, children: seq<string>, ghost order: seq<string>, ghost i: nat): nat
    requires ChildrenFirst(g, order) && i <= |order| && children != [] && forall c | c in children :: c in order[..i]
    decreases i, |children|
  {
    var first := Longest(g, children[0], order, i);
    if |children| == 1 then first else Larger(first, LongestOf(g, children[1..], order, i))
  }

  lemma {:induction false} ChildrenEarlier(g: Registry, order: seq<string>, name: string, i: nat)
    requires ChildrenFirst(g, order) && i <= |order| && name in order[..i]
    ensures name in g && i >= 1 && forall c | c in g[name] :: c in order[..i - 1]
  {
    var j :| 0 <= j < i && order[j] == name;
    forall c | c in g[name]
      ensures c in order[..i - 1]
    {
      var k :| 0 <= k < j && order[..j][k] == c;
      assert order[..i - 1][k] == c;
    }
  }

  lemma {:induction false} LongestOfBounds(g: Registry, children: seq<string>, order: seq<string>, i: nat, c: string)
    requires ChildrenFirst(g, order) && i <= |order| && children != [] && forall d | d in children :: d in order[..i]
    requires c in children
    ensures Longest(g, c, order, i) <= LongestOf(g, children, order, i)
  {
    if children[0] != c {
      LongestOfBounds(g, children[1..], order, i, c);
    }
  }

  lemma {:induction false} LongestOfTaken(g: Registry, children: seq<string>, order: seq<string>, i: nat)
    returns (c: string)
    requires ChildrenFirst(g, order) && i <= |order| && children != [] && forall d | d in children :: d in order[..i]
    ensures c in children && Longest(g, c, order, i) == LongestOf(g, children, order, i)
  {
    c := children[0];
    if |children| > 1 && LongestOf(g, children[1..], order, i) > Longest(g, c, order, i) {
      c := LongestOfTaken(g, children[1..], order, i);
    }
  }

  /** No path from a Profile has more edges than its longest. */
  lemma {:induction false} LongestBounds(g: Registry, p: seq<string>, order: seq<string>, i: nat)
    requires ChildrenFirst(g, order) && i <= |order| && IsPath(g, p) && p[0] in order[..i]
    ensures |p| - 1 <= Longest(g, p[0], order, i)
  {
    if |p| > 1 {
      ChildrenEarlier(g, order, p[0], i);
      assert IsPath(g, p[1..]) && p[1] in g[p[0]];
      LongestBounds(g, p[1..], order, i - 1);
      LongestOfBounds(g, g[p[0]], order, i - 1, p[1]);
    }
  }

  /** Some path attains it. */
  lemma {:induction false} LongestAttained(g: Registry, name: string, order: seq<string>, i: nat)
    returns (p: seq<string>)
    requires ChildrenFirst(g, order) && i <= |order| && name in order[..i]
    ensures IsPath(g, p) && p[0] == name && |p| == Longest(g, name, order, i) + 1
    decreases i
  {
    ChildrenEarlier(g, order, name, i);
    p := [name];
    if g[name] != [] {
      var c := LongestOfTaken(g, g[name], order, i - 1);
      var rest := LongestAttained(g, c, order, i - 1);
      p := [name] + rest;
    }
  }

  const MAX_DEPTH := 3

  /** No chain of authorised children is longer than three steps. */
  ghost predicate Shallow(g: Registry) {
    forall p | IsPath(g, p) :: |p| <= MAX_DEPTH + 1
  }

  method RejectProfileDepth(g: Registry, names: seq<string>, ghost order: seq<string>) returns (accepted: bool)
    requires forall n :: n in names <==> n in g
    requires ChildrenFirst(g, order) && forall n | n in g :: n in order
    ensures accepted <==> Shallow(g)
  {
    hide IsPath, ChildrenFirst, Longest;
    assert order[..|order|] == order;
    for i := 0 to |names|
      invariant forall k | 0 <= k < i :: Longest(g, names[k], order, |order|) <= MAX_DEPTH
    {
      if Longest(g, names[i], order, |order|) > MAX_DEPTH {
        ghost var p := LongestAttained(g, names[i], order, |order|);
        return false;
      }
    }
    forall p | IsPath(g, p)
      ensures |p| <= MAX_DEPTH + 1
    {
      PathStarts(g, p);
      LongestBounds(g, p, order, |order|);
    }
    return true;
  }

  lemma {:induction false} PathStarts(g: Registry, p: seq<string>)
    requires IsPath(g, p)
    ensures |p| >= 1 && p[0] in g
  {
  }

  /** A closed registry without a chain of more than three children has no cycle. */
  lemma {:induction false} ShallowIsAcyclic(g: Registry)
    requires Shallow(g)
    ensures Acyclic(g)
  {
    forall p
      ensures !Returns(g, p)
    {
      if Returns(g, p) {
        var q := Unrolled(g, p, MAX_DEPTH + 2);
      }
    }
  }

  /** A cycle gives paths of any length. */
  lemma {:induction false} Unrolled(g: Registry, p: seq<string>, n: nat) returns (q: seq<string>)
    requires Returns(g, p)
    ensures IsPath(g, q) && |q| >= n && q[0] == p[0]
  {
    q := p;
    if n > |p| {
      var rest := Unrolled(g, p, n - 1);
      q := p[..|p| - 1] + rest;
      assert IsPath(g, q);
    }
  }

  /** The cycle check, then the depth check: together they accept exactly the closed registries of bounded depth. */
  method ValidateProfiles(g: Registry, names: seq<string>) returns (accepted: bool)
    requires forall n :: n in names <==> n in g
    ensures accepted <==> ChildrenKnown(g) && Shallow(g)
  {
    hide ChildrenKnown, Acyclic, Shallow, OnCycle, Dangling;
    var v, order := RejectProfileCycles(g, names);
    if !v.Accepted? {
      if Shallow(g) { ShallowIsAcyclic(g); }
      return false;
    }
    accepted := RejectProfileDepth(g, names, order);
  }
}
