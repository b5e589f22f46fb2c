/** Directed graphs over names, their walks, and the two worklist closures of the
    scripts: every node that reaches a target, and every node reached from a
    start by at least one edge. */
module Graphs {

  type Edges = map<string, set<string>>

  function Successors(g: Edges, n: string): set<string> { if n in g then g[n] else {} }

  function Nodes(g: Edges): set<string> { g.Keys + set k, n | k in g && n in g[k] :: n }

  function Parents(g: Edges, n: string): set<string> { set k | k in g && n in g[k] }

  ghost predicate IsWalk(g: Edges, p: seq<string>) {
    |p| > 0 && forall i :: 0 <= i < |p| - 1 ==> p[i + 1] in Successors(g, p[i])
  }

  ghost predicate Connects(g: Edges, p: seq<string>, a: string, b: string) {
    IsWalk(g, p) && p[0] == a && p[|p| - 1] == b
  }

  ghost predicate Reaches(g: Edges, a: string, b: string) {
    exists p :: Connects(g, p, a, b)
  }

  /** By a walk of at least one edge. */
  ghost predicate ReachesByEdge(g: Edges, a: string, b: string) {
    exists p :: Connects(g, p, a, b) && |p| > 1
  }

  predicate Distinct(p: seq<string>) {
    forall i, j :: 0 <= i < j < |p| ==> p[i] != p[j]
  }

  lemma JoinWalks(g: Edges, p: seq<string>, q: seq<string>)
    requires IsWalk(g, p) && IsWalk(g, q) && q[0] in Successors(g, p[|p| - 1])
    ensures IsWalk(g, p + q) && Connects(g, p + q, p[0], q[|q| - 1])
  {
    forall i | 0 <= i < |p + q| - 1 ensures (p + q)[i + 1] in Successors(g, (p + q)[i]) {
      if i < |p| - 1 {
        assert (p + q)[i] == p[i] && (p + q)[i + 1] == p[i + 1];
      } else if i >= |p| {
        assert (p + q)[i] == q[i - |p|] && (p + q)[i + 1] == q[i - |p| + 1];
      }
    }
  }

  lemma SelfWalk(g: Edges, n: string)
    ensures Connects(g, [n], n, n) && Reaches(g, n, n)
  {
    assert Connects(g, [n], n, n);
  }

  lemma EdgeThenReaches(g: Edges, a: string, b: string, c: string)
    requires b in Successors(g, a) && Reaches(g, b, c)
    ensures Reaches(g, a, c)
  {
    var p :| Connects(g, p, b, c);
    SelfWalk(g, a);
    JoinWalks(g, [a], p);
  }

  lemma ReachesThenEdge(g: Edges, a: string, b: string, c: string)
    requires Reaches(g, a, b) && c in Successors(g, b)
    ensures ReachesByEdge(g, a, c) && Reaches(g, a, c)
  {
    var p :| Connects(g, p, a, b);
    SelfWalk(g, c);
    JoinWalks(g, p, [c]);
    assert Connects(g, p + [c], a, c);
  }

  /** A set that holds b and all parents of its members holds all that reach b. */
  lemma {:induction false} ClosedHoldsAncestors(g: Edges, s: set<string>, p: seq<string>)
    requires IsWalk(g, p) && p[|p| - 1] in s
    requires forall n :: n in s ==> Parents(g, n) <= s
    ensures p[0] in s
  {
    if |p| > 1 {
      assert IsWalk(g, p[1..]) by {
        forall i | 0 <= i < |p[1..]| - 1 ensures p[1..][i + 1] in Successors(g, p[1..][i]) {
          assert p[1..][i] == p[i + 1] && p[1..][i + 1] == p[i + 2];
        }
      }
      ClosedHoldsAncestors(g, s, p[1..]);
      assert p[1] in Successors(g, p[0]);
      assert p[0] in Parents(g, p[1]);
    }
  }

  /** A set that holds the successors of a and of its own members holds
      everything reached from a by an edge. */
  lemma {:induction false} ClosedHoldsDescendants(g: Edges, s: set<string>, a: string, p: seq<string>)
    requires IsWalk(g, p) && p[0] == a && |p| > 1
    requires Successors(g, a) <= s && forall n :: n in s ==> Successors(g, n) <= s
    ensures p[|p| - 1] in s
  {
    var last := |p| - 1;
    assert p[last] in Successors(g, p[last - 1]);
    if last > 1 {
      assert IsWalk(g, p[..last]) by {
        forall i | 0 <= i < last - 1 ensures p[..last][i + 1] in Successors(g, p[..last][i]) {
          assert p[i + 1] in Successors(g, p[i]);
        }
      }
      ClosedHoldsDescendants(g, s, a, p[..last]);
      assert p[last - 1] in s;
    }
  }

  /** The set `reaches` of the stack analysis. */
  method Ancestors(g: Edges, target: string) returns (reaches: set<string>)
    ensures forall n :: n in reaches <==> Reaches(g, n, target)
  {
    reaches := {target};
    var pending := [target];
    SelfWalk(g, target);
    ghost var all := Nodes(g) + {target};
    while pending != []
      invariant target in reaches && reaches <= all
      invariant forall n :: n in pending ==> n in reaches
      invariant forall n :: n in reaches ==> Reaches(g, n, target)
      invariant forall n :: n in reaches && n !in pending ==> Parents(g, n) <= reaches
      decreases all - reaches, |pending|
    {
      var current := pending[|pending| - 1];
      ghost var before, left := reaches, pending[..|pending| - 1];
      pending := pending[..|pending| - 1];
      var parents := Parents(g, current);
      while parents != {}
        invariant target in reaches && before <= reaches <= all
        invariant parents <= Parents(g, current) && Parents(g, current) - parents <= reaches
        invariant forall n :: n in pending ==> n in reaches
        invariant forall n :: n in reaches ==> Reaches(g, n, target)
        invariant forall n :: n in reaches && n !in pending && n != current ==> Parents(g, n) <= reaches
        invariant reaches == before ==> pending == left
        invariant reaches != before ==> before < reaches
        decreases parents
      {
        var parent :| parent in parents;
        parents := parents - {parent};
        if parent !in reaches {
          EdgeThenReaches(g, parent, current, target);
          reaches := reaches + {parent};
          pending := pending + [parent];
        }
      }
    }
    forall n | Reaches(g, n, target) ensures n in reaches {
      var p :| Connects(g, p, n, target);
      ClosedHoldsAncestors(g, reaches, p);
    }
  }

  /** _transitive_includes: the start itself is listed only if it lies on a cycle. */
  method TransitiveIncludes(start: string, g: Edges) returns (seen: set<string>)
    ensures forall n :: n in seen <==> ReachesByEdge(g, start, n)
  {
    seen := {};
    var stack := [start];
    SelfWalk(g, start);
    while stack != []
      invariant seen <= Nodes(g)
      invariant forall n :: n in stack ==> n == start || n in seen
      invariant forall n :: n in seen ==> ReachesByEdge(g, start, n)
      invariant forall n :: (n in seen || n == start) && n !in stack ==> Successors(g, n) <= seen
      decreases Nodes(g) - seen, |stack|
    {
      var current := stack[|stack| - 1];
      ghost var before, left := seen, stack[..|stack| - 1];
      stack := stack[..|stack| - 1];
      var included := Successors(g, current);
      while included != {}
        invariant before <= seen <= Nodes(g)
        invariant included <= Successors(g, current) && Successors(g, current) - included <= seen
        invariant forall n :: n in stack ==> n == start || n in seen
        invariant forall n :: n in seen ==> ReachesByEdge(g, start, n)
        invariant forall n :: (n in seen || n == start) && n !in stack && n != current ==> Successors(g, n) <= seen
        invariant seen == before ==> stack == left
        invariant seen != before ==> before < seen
        decreases included
      {
        var next :| next in included;
        included := included - {next};
        if next !in seen {
          assert Reaches(g, start, current);
          ReachesThenEdge(g, start, current, next);
          seen := seen + {next};
          stack := stack + [next];
        }
      }
    }
    forall n | ReachesByEdge(g, start, n) ensures n in seen {
      var p :| Connects(g, p, start, n) && |p| > 1;
      ClosedHoldsDescendants(g, seen, start, p);
    }
  }
}
