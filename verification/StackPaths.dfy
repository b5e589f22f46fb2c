/** The stack-depth analysis: largest frame sum between two functions and below
    one function, by memoised depth-first search that skips active nodes. */
module StackPaths {
  import opened Wrappers
  import opened Graphs

  datatype Graph = Graph(edges: Edges, frames: map<string, nat>)

  function Frame(g: Graph, n: string): nat { if n in g.frames then g.frames[n] else 0 }

  function Sum(g: Graph, p: seq<string>): nat {
    if p == [] then 0 else Frame(g, p[0]) + Sum(g, p[1..])
  }

  lemma {:induction false} SumOfJoin(g: Graph, p: seq<string>, q: seq<string>)
    ensures Sum(g, p + q) == Sum(g, p) + Sum(g, q)
  {
    if p == [] {
      assert p + q == q;
    } else {
      assert (p + q)[1..] == p[1..] + q;
      SumOfJoin(g, p[1..], q);
    }
  }

  /** No walk from the root that can still reach the target repeats a node. */
  ghost predicate AcyclicBetween(g: Graph, root: string, target: string) {
    forall p {:trigger Distinct(p)} ::
      IsWalk(g.edges, p) && p[0] == root && Reaches(g.edges, p[|p| - 1], target) ==> Distinct(p)
  }

  /** No walk from the root repeats a node. */
  ghost predicate AcyclicFrom(g: Graph, root: string) {
    forall p {:trigger Distinct(p)} :: IsWalk(g.edges, p) && p[0] == root ==> Distinct(p)
  }

  /** A walk to the target with this frame sum, and none is deeper. */
  ghost predicate IsLongest(g: Graph, start: string, target: string, depth: int, path: seq<string>) {
    && Connects(g.edges, path, start, target) && Sum(g, path) == depth
    && forall q :: Connects(g.edges, q, start, target) ==> Sum(g, q) <= depth
  }

  /** A walk from the root with this frame sum, and none is deeper. */
  ghost predicate IsDeepest(g: Graph, root: string, depth: int, path: seq<string>) {
    && Starts(path, root) && IsWalk(g.edges, path) && Sum(g, path) == depth
    && forall q :: IsWalk(g.edges, q) && q[0] == root ==> Sum(g, q) <= depth
  }

  predicate Starts(p: seq<string>, n: string) { |p| > 0 && p[0] == n }

  function Elements(p: seq<string>): set<string> { set n | n in p }

  lemma TailIsWalk(g: Edges, p: seq<string>)
    requires IsWalk(g, p) && |p| > 1
    ensures IsWalk(g, p[1..]) && p[1] in Successors(g, p[0]) && p[1..][|p| - 2] == p[|p| - 1]
  {
    forall i | 0 <= i < |p[1..]| - 1 ensures p[1..][i + 1] in Successors(g, p[1..][i]) {
      assert p[1..][i] == p[i + 1] && p[1..][i + 1] == p[i + 2];
    }
  }

  lemma ExtendWalk(g: Edges, p: seq<string>, c: string)
    requires IsWalk(g, p) && c in Successors(g, p[|p| - 1])
    ensures IsWalk(g, p + [c]) && (p + [c])[0] == p[0]
  {
    SelfWalk(g, c);
    JoinWalks(g, p, [c]);
  }

  lemma RepeatIsNotDistinct(p: seq<string>, c: string)
    requires c in p
    ensures !Distinct(p + [c])
  {
    var i :| 0 <= i < |p| && p[i] == c;
    assert (p + [c])[i] == (p + [c])[|p|];
  }

  lemma JoinedRepeats(g: Edges, p: seq<string>, q: seq<string>)
    requires IsWalk(g, p) && Connects(g, q, p[|p| - 1], p[|p| - 1]) && |q| > 1
    ensures Connects(g, p + q[1..], p[0], p[|p| - 1]) && !Distinct(p + q[1..])
  {
    TailIsWalk(g, q);
    JoinWalks(g, p, q[1..]);
    var all := p + q[1..];
    assert all[|p| - 1] == all[|all| - 1];
  }

  /** A memo only gains entries. */
  ghost predicate Extends<T>(before: map<string, T>, after: map<string, T>) {
    forall n :: n in before ==> n in after && after[n] == before[n]
  }

  // ----- deepest callee path

  class DeepestSearch {
    const g: Graph
    var memo: map<string, (nat, seq<string>)>
    var active: set<string>
    var cycles: set<string>

    /** Every remembered result is a genuine simple path of remembered nodes. */
    ghost predicate Valid()
      reads this
    {
      && memo.Keys !! active
      && forall n :: n in memo ==>
           var (depth, path) := memo[n];
           && Starts(path, n) && IsWalk(g.edges, path) && Distinct(path)
           && Sum(g, path) == depth && Elements(path) <= memo.Keys
    }

    /** Every remembered depth bounds all walks from its node. */
    ghost predicate Exact()
      reads this
    {
      forall n, q :: n in memo && IsWalk(g.edges, q) && q[0] == n ==> Sum(g, q) <= memo[n].0
    }

    constructor (g: Graph)
      ensures this.g == g && Valid() && Exact() && active == {} && memo == map[]
    {
      this.g := g;
      memo, active, cycles := map[], {}, {};
    }

    /** `trail` is the chain of active callers from the root. */
    method Walk(node: string, ghost trail: seq<string>, ghost root: string, ghost acyclic: bool)
      returns (depth: nat, path: seq<string>)
      requires Valid() && node !in active && node in Nodes(g.edges) + {root}
      requires active == Elements(trail) && active <= Nodes(g.edges) + {root}
      requires IsWalk(g.edges, trail + [node]) && (trail + [node])[0] == root
      requires acyclic ==> AcyclicFrom(g, root) && Exact()
      modifies this
      decreases Nodes(g.edges) + {root} - active, 1
      ensures Valid() && active == old(active) && Extends(old(memo), memo)
      ensures node in memo && memo[node] == (depth, path)
      ensures acyclic ==> Exact()
    {
      if node in memo {
        return memo[node].0, memo[node].1;
      }
      active := active + {node};
      ghost var here := trail + [node];
      assert active == Elements(here);
      var best := WalkChildren(node, here, root, acyclic);
      depth, path := Remember(node, best, acyclic);
      assert active == old(active);
    }

    method WalkChildren(node: string, ghost here: seq<string>, ghost root: string, ghost acyclic: bool)
      returns (best: (nat, seq<string>))
      requires Valid() && node in active && active == Elements(here) && active <= Nodes(g.edges) + {root}
      requires IsWalk(g.edges, here) && here[0] == root && here[|here| - 1] == node
      requires acyclic ==> AcyclicFrom(g, root) && Exact()
      modifies this
      decreases Nodes(g.edges) + {root} - active, 2
      ensures Valid() && active == old(active) && Extends(old(memo), memo)
      ensures FromChild(node, best)
      ensures acyclic ==> Exact() && Covered(Successors(g.edges, node), best.0)
    {
      best := (0, []);
      var children := Successors(g.edges, node);
      while children != {}
        invariant Valid() && active == old(active) && Extends(old(memo), memo)
        invariant children <= Successors(g.edges, node)
        invariant acyclic ==> Exact()
        invariant FromChild(node, best)
        invariant acyclic ==> Covered(Successors(g.edges, node) - children, best.0)
        decreases children
      {
        var child :| child in children;
        children := children - {child};
        ExtendWalk(g.edges, here, child);
        if child in active {
          cycles := cycles + {child};
          ActiveMeansCycle(here, child, root);
          continue;
        }
        var depthBelow, pathBelow := Walk(child, here, root, acyclic);
        if depthBelow > best.0 {
          best := (depthBelow, pathBelow);
        }
      }
      assert Successors(g.edges, node) - {} == Successors(g.edges, node);
    }

    method Remember(node: string, best: (nat, seq<string>), ghost acyclic: bool) returns (depth: nat, path: seq<string>)
      requires Valid() && node in active && FromChild(node, best)
      requires acyclic ==> Exact() && Covered(Successors(g.edges, node), best.0)
      modifies this`memo, this`active
      ensures Valid() && active == old(active) - {node} && Extends(old(memo), memo)
      ensures node in memo && memo[node] == (depth, path)
      ensures acyclic ==> Exact()
    {
      active := active - {node};
      depth, path := Frame(g, node) + best.0, [node] + best.1;
      PathFromBest(node, best.0, best.1);
      if acyclic {
        BestIsExact(node, best.0);
      }
      memo := memo[node := (depth, path)];
    }

    /** `best` is the empty start value or the remembered result of a child. */
    ghost predicate FromChild(node: string, best: (nat, seq<string>))
      reads this
    {
      if best.1 == [] then best.0 == 0
      else best.1[0] in Successors(g.edges, node) && best.1[0] in memo && best == memo[best.1[0]]
    }

    ghost predicate Covered(children: set<string>, depth: nat)
      reads this
    {
      forall c :: c in children ==> c in memo && memo[c].0 <= depth
    }

    lemma ActiveMeansCycle(here: seq<string>, child: string, root: string)
      requires IsWalk(g.edges, here + [child]) && (here + [child])[0] == root && child in Elements(here)
      ensures !AcyclicFrom(g, root)
    {
      RepeatIsNotDistinct(here, child);
    }

    lemma BestIsExact(node: string, depth: nat)
      requires Exact() && Covered(Successors(g.edges, node), depth)
      ensures forall q :: IsWalk(g.edges, q) && q[0] == node ==> Sum(g, q) <= Frame(g, node) + depth
    {
      forall q | IsWalk(g.edges, q) && q[0] == node ensures Sum(g, q) <= Frame(g, node) + depth {
        if |q| > 1 {
          TailIsWalk(g.edges, q);
          assert Sum(g, q[1..]) <= memo[q[1]].0;
        }
      }
    }

    lemma PathFromBest(node: string, depth: nat, path: seq<string>)
      requires Valid() && node !in memo && FromChild(node, (depth, path))
      ensures IsWalk(g.edges, [node] + path) && Distinct([node] + path)
      ensures Sum(g, [node] + path) == Frame(g, node) + depth
      ensures Elements([node] + path) <= memo.Keys + {node}
    {
      SelfWalk(g.edges, node);
      if path != [] {
        JoinWalks(g.edges, [node], path);
        forall n | n in path ensures n in memo { assert n in Elements(path); }
      }
      assert ([node] + path)[1..] == path;
    }
  }

  /** On any graph the result is the frame sum of a genuine simple call path from
      the root; if no cycle is reachable it is the maximum over all call paths. */
  method Deepest(g: Graph, root: string) returns (depth: nat, path: seq<string>)
    ensures Starts(path, root) && IsWalk(g.edges, path) && Distinct(path) && Sum(g, path) == depth
    ensures AcyclicFrom(g, root) ==> IsDeepest(g, root, depth, path)
    ensures RepetitionsCost(g, root) ==> IsDeepest(g, root, depth, path) ==> AcyclicFrom(g, root)
  {
    var search := new DeepestSearch(g);
    SelfWalk(g.edges, root);
    assert [] + [root] == [root];
    depth, path := search.Walk(root, [], root, AcyclicFrom(g, root));
    if RepetitionsCost(g, root) {
      DeepestExactlyIfAcyclic(g, root, depth, path);
    }
  }

  // ----- longest path between two functions

  type Memo = map<string, (int, seq<string>)>

  /** Every remembered result is a simple path; its depth is the path's frame
      sum if it ends at the target, and one less if it is a dead end. */
  ghost predicate GoodEntry(g: Graph, target: string, n: string, depth: int, path: seq<string>) {
    && Starts(path, n) && IsWalk(g.edges, path) && Distinct(path)
    && Sum(g, path) == depth + (if path[|path| - 1] == target then 0 else 1)
    && Frame(g, n) - 1 <= depth
  }

  ghost predicate GoodMemo(g: Graph, target: string, memo: Memo) {
    forall n :: n in memo ==> GoodEntry(g, target, n, memo[n].0, memo[n].1) && Elements(memo[n].1) <= memo.Keys
  }

  ghost predicate ExactMemo(g: Graph, target: string, memo: Memo) {
    && (forall n :: n in memo ==> memo[n].1 != [] && memo[n].1[|memo[n].1| - 1] == target)
    && forall n, q :: n in memo && Connects(g.edges, q, n, target) ==> Sum(g, q) <= memo[n].0
  }

  /** `best` is the sentinel or the remembered result of a child. */
  ghost predicate FromChild(g: Graph, memo: Memo, node: string, best: (int, seq<string>)) {
    if best.1 == [] then best.0 == -1
    else best.0 >= 0 && best.1[0] in Successors(g.edges, node) && best.1[0] in memo && best == memo[best.1[0]]
  }

  /** The reaching ones among the children are remembered and no deeper. */
  ghost predicate Covered(memo: Memo, children: set<string>, reaches: set<string>, depth: int) {
    forall c :: c in children && c in reaches ==> c in memo && memo[c].0 <= depth
  }

  ghost predicate AreAncestors(g: Graph, target: string, reaches: set<string>) {
    forall n :: n in reaches <==> Reaches(g.edges, n, target)
  }

  lemma RememberIsGood(g: Graph, target: string, memo: Memo, node: string, best: (int, seq<string>))
    requires GoodMemo(g, target, memo) && node !in memo && node != target && FromChild(g, memo, node, best)
    ensures GoodMemo(g, target, memo[node := (Frame(g, node) + best.0, [node] + best.1)])
  {
    SelfWalk(g.edges, node);
    if best.1 != [] {
      JoinWalks(g.edges, [node], best.1);
      forall n | n in best.1 ensures n in memo { assert n in Elements(best.1); }
    }
    assert ([node] + best.1)[1..] == best.1;
    assert GoodEntry(g, target, node, Frame(g, node) + best.0, [node] + best.1);
  }

  lemma BestIsExact(
    g: Graph, target: string, memo: Memo, reaches: set<string>, node: string, best: (int, seq<string>))
    requires ExactMemo(g, target, memo) && GoodMemo(g, target, memo) && AreAncestors(g, target, reaches)
    requires node in reaches && node != target && node !in memo && FromChild(g, memo, node, best)
    requires Covered(memo, Successors(g.edges, node), reaches, best.0)
    ensures ExactMemo(g, target, memo[node := (Frame(g, node) + best.0, [node] + best.1)])
  {
    forall q | Connects(g.edges, q, node, target) ensures Sum(g, q) <= Frame(g, node) + best.0 && best.1 != [] {
      TailIsWalk(g.edges, q);
      assert Connects(g.edges, q[1..], q[1], target);
      assert Sum(g, q[1..]) <= memo[q[1]].0;
      assert GoodEntry(g, target, q[1], memo[q[1]].0, memo[q[1]].1);
    }
    var q :| Connects(g.edges, q, node, target);
  }

  class LongestSearch {
    const g: Graph
    const target: string
    const reaches: set<string>
    var memo: Memo
    var active: set<string>
    var cycles: set<string>

    ghost predicate Valid()
      reads this
    {
      memo.Keys !! active && AreAncestors(g, target, reaches) && GoodMemo(g, target, memo)
    }

    constructor (g: Graph, target: string, reaches: set<string>)
      requires AreAncestors(g, target, reaches)
      ensures this.g == g && this.target == target && this.reaches == reaches
      ensures Valid() && active == {} && memo == map[]
    {
      this.g, this.target, this.reaches := g, target, reaches;
      memo, active, cycles := map[], {}, {};
    }

    method Walk(node: string, ghost trail: seq<string>, ghost root: string, ghost acyclic: bool)
      returns (depth: int, path: seq<string>)
      requires Valid() && node !in active && node in Nodes(g.edges) + {root} && node in reaches
      requires active == Elements(trail) && active <= Nodes(g.edges) + {root}
      requires IsWalk(g.edges, trail + [node]) && (trail + [node])[0] == root
      requires acyclic ==> AcyclicBetween(g, root, target) && ExactMemo(g, target, memo)
      modifies this
      decreases Nodes(g.edges) + {root} - active, 1
      ensures Valid() && active == old(active) && Extends(old(memo), memo)
      ensures node in memo && memo[node] == (depth, path)
      ensures acyclic ==> ExactMemo(g, target, memo)
      ensures node !in old(memo) && node != target ==>
                Covered(memo, Successors(g.edges, node) - active - {node}, reaches, depth - Frame(g, node))
    {
      if node in memo {
        return memo[node].0, memo[node].1;
      }
      ghost var here := trail + [node];
      if node == target {
        depth, path := RememberTarget(here, root, acyclic);
        return;
      }
      active := active + {node};
      assert active == Elements(here);
      var best := WalkChildren(node, here, root, acyclic);
      depth, path := Remember(node, best, acyclic);
      assert active == old(active);
      assert Successors(g.edges, node) - active - {node} == Successors(g.edges, node) - (active + {node});
    }

    method WalkChildren(node: string, ghost here: seq<string>, ghost root: string, ghost acyclic: bool)
      returns (best: (int, seq<string>))
      requires Valid() && node in active && active == Elements(here) && active <= Nodes(g.edges) + {root}
      requires IsWalk(g.edges, here) && here[0] == root && here[|here| - 1] == node
      requires acyclic ==> AcyclicBetween(g, root, target) && ExactMemo(g, target, memo)
      modifies this
      decreases Nodes(g.edges) + {root} - active, 2
      ensures Valid() && active == old(active) && Extends(old(memo), memo)
      ensures acyclic ==> ExactMemo(g, target, memo) && Successors(g.edges, node) * reaches !! active
      ensures FromChild(g, memo, node, best)
      ensures Covered(memo, Successors(g.edges, node) - active, reaches, best.0)
    {
      best := (-1, []);
      var children := Successors(g.edges, node);
      while children != {}
        invariant Valid() && active == old(active) && Extends(old(memo), memo)
        invariant children <= Successors(g.edges, node)
        invariant acyclic ==> ExactMemo(g, target, memo) && (Successors(g.edges, node) - children) * reaches !! active
        invariant FromChild(g, memo, node, best)
        invariant Covered(memo, Successors(g.edges, node) - children - active, reaches, best.0)
        decreases children
      {
        var child :| child in children;
        children := children - {child};
        if child !in reaches {
          continue;
        }
        ExtendWalk(g.edges, here, child);
        if child in active {
          cycles := cycles + {child};
          ActiveMeansCycle(here, child, root);
          continue;
        }
        var depthBelow, pathBelow := Walk(child, here, root, acyclic);
        if depthBelow > best.0 {
          best := (depthBelow, pathBelow);
        }
      }
      assert Successors(g.edges, node) - {} == Successors(g.edges, node);
    }

    method Remember(node: string, best: (int, seq<string>), ghost acyclic: bool) returns (depth: int, path: seq<string>)
      requires Valid() && node in active && node in reaches && node != target && FromChild(g, memo, node, best)
      requires Covered(memo, Successors(g.edges, node) - active, reaches, best.0)
      requires acyclic ==> ExactMemo(g, target, memo) && Successors(g.edges, node) * reaches !! active
      modifies this`memo, this`active
      ensures Valid() && active == old(active) - {node} && Extends(old(memo), memo)
      ensures node in memo && memo[node] == (depth, path)
      ensures Covered(memo, Successors(g.edges, node) - old(active), reaches, depth - Frame(g, node))
      ensures acyclic ==> ExactMemo(g, target, memo)
    {
      depth, path := Frame(g, node) + best.0, [node] + best.1;
      RememberIsGood(g, target, memo, node, best);
      if acyclic {
        BestIsExact(g, target, memo, reaches, node, best);
      }
      active := active - {node};
      memo := memo[node := (depth, path)];
    }

    method RememberTarget(ghost here: seq<string>, ghost root: string, ghost acyclic: bool)
      returns (depth: int, path: seq<string>)
      requires Valid() && target !in memo && target !in active
      requires IsWalk(g.edges, here) && here[0] == root && here[|here| - 1] == target
      requires acyclic ==> AcyclicBetween(g, root, target) && ExactMemo(g, target, memo)
      modifies this`memo
      ensures Valid() && Extends(old(memo), memo) && target in memo && memo[target] == (depth, path)
      ensures acyclic ==> ExactMemo(g, target, memo)
    {
      depth, path := Frame(g, target), [target];
      SelfWalk(g.edges, target);
      if acyclic {
        forall q | Connects(g.edges, q, target, target) ensures Sum(g, q) <= depth {
          TargetWalkIsTrivial(here, q, root);
        }
      }
      assert path[1..] == [];
      assert GoodEntry(g, target, target, depth, path);
      memo := memo[target := (depth, path)];
    }

    lemma TargetWalkIsTrivial(here: seq<string>, q: seq<string>, root: string)
      requires AcyclicBetween(g, root, target) && Connects(g.edges, q, target, target)
      requires IsWalk(g.edges, here) && here[0] == root && here[|here| - 1] == target
      ensures |q| == 1
    {
      if |q| > 1 {
        JoinedRepeats(g.edges, here, q);
        SelfWalk(g.edges, target);
      }
    }

    lemma ActiveMeansCycle(here: seq<string>, child: string, root: string)
      requires Valid() && child in reaches
      requires IsWalk(g.edges, here + [child]) && (here + [child])[0] == root && child in Elements(here)
      ensures !AcyclicBetween(g, root, target)
    {
      RepeatIsNotDistinct(here, child);
      assert (here + [child])[|here|] == child;
    }
  }

  /** The callees through which the target can be reached. */
  ghost function Entrances(g: Graph, start: string, target: string): set<string> {
    set c | c in Successors(g.edges, start) && start != target && c != start && Reaches(g.edges, c, target)
  }

  /** None exactly if the target cannot be reached. Otherwise the path is simple,
      and the depth is its frame sum if it ends at the target and one less if it
      does not. Without a cycle on the way, it does end there and the depth is
      the maximum over all walks to the target. */
  method LongestPath(g: Graph, start: string, target: string) returns (result: Option<(int, seq<string>)>)
    ensures result.None? <==> !Reaches(g.edges, start, target)
    ensures result.Some? ==>
              var (depth, path) := result.value;
              && Starts(path, start) && IsWalk(g.edges, path) && Distinct(path)
              && Sum(g, path) == depth + (if path[|path| - 1] == target then 0 else 1)
    ensures result.Some? && AcyclicBetween(g, start, target) ==>
              IsLongest(g, start, target, result.value.0, result.value.1)
    ensures result.Some? && RepetitionsCost(g, start) ==>
              IsLongest(g, start, target, result.value.0, result.value.1) ==> AcyclicBetween(g, start, target)
    ensures result.Some? ==>
              forall c :: c in Entrances(g, start, target) ==> Frame(g, start) + Frame(g, c) - 1 <= result.value.0
  {
    var reaches := Ancestors(g.edges, target);
    if start !in reaches {
      return None;
    }
    var search := new LongestSearch(g, target, reaches);
    SelfWalk(g.edges, start);
    assert [] + [start] == [start];
    var depth, path := search.Walk(start, [], start, AcyclicBetween(g, start, target));
    result := Some((depth, path));
    if RepetitionsCost(g, start) {
      LongestExactlyIfAcyclic(g, start, target, depth, path);
    }
    forall c | c in Entrances(g, start, target)
      ensures Frame(g, start) + Frame(g, c) - 1 <= depth
    {
      assert c in Successors(g.edges, start) - search.active - {start};
    }
  }

  const DEAD_END := Graph(map["s" := {"a", "t"}, "a" := {"s"}], map["s" := 1, "a" := 10, "t" := 1])

  lemma BackFromDeadEnd(path: seq<string>)
    requires IsWalk(DEAD_END.edges, path) && path[0] == "s" && |path| > 2
    ensures path[2] == "s"
  {
    var edges := DEAD_END.edges;
    assert path[1] in Successors(edges, path[0]) && path[2] in Successors(edges, path[1]);
    assert Successors(edges, "t") == {} && Successors(edges, "a") == {"s"};
  }

  lemma DirectPathCosts(path: seq<string>)
    requires Connects(DEAD_END.edges, path, "s", "t") && Distinct(path)
    ensures Sum(DEAD_END, path) == 2
  {
    var g := DEAD_END;
    if |path| > 2 {
      BackFromDeadEnd(path);
    }
    assert path == ["s", "t"];
    assert path[1..] == ["t"] && path[1..][1..] == [];
    assert Sum(g, path[1..]) == Frame(g, "t") + Sum(g, []);
  }

  /** With a cycle on the way the sentinel can win: here the dead end through
      "a" is deeper than the only simple path to the target, so the reported
      path does not reach the target and no genuine path has the reported depth. */
  method DeadEndWins() returns (depth: int, path: seq<string>)
    ensures |path| > 0 && path[|path| - 1] != "t" && depth >= 10
  {
    var g := DEAD_END;
    SelfWalk(g.edges, "t");
    EdgeThenReaches(g.edges, "s", "t", "t");
    EdgeThenReaches(g.edges, "a", "s", "t");
    var result := LongestPath(g, "s", "t");
    depth, path := result.value.0, result.value.1;
    assert "a" in Entrances(g, "s", "t");
    if path[|path| - 1] == "t" {
      DirectPathCosts(path);
    }
  }

  // ----- why acyclicity is needed

  function Repeated(p: seq<string>, k: nat): seq<string> { if k == 0 then [] else p + Repeated(p, k - 1) }

  lemma SliceIsWalk(g: Edges, p: seq<string>, i: nat, j: nat)
    requires IsWalk(g, p) && i < j <= |p|
    ensures IsWalk(g, p[i..j])
  {
    forall m | 0 <= m < |p[i..j]| - 1 ensures p[i..j][m + 1] in Successors(g, p[i..j][m]) {
      assert p[i..j][m] == p[i + m] && p[i..j][m + 1] == p[i + m + 1];
    }
  }

  lemma {:induction false} PumpCycle(g: Graph, cycle: seq<string>, tail: seq<string>, k: nat)
    requires IsWalk(g.edges, cycle) && IsWalk(g.edges, tail) && cycle[0] == tail[0]
    requires tail[0] in Successors(g.edges, cycle[|cycle| - 1])
    ensures var q := Repeated(cycle, k) + tail;
            && Connects(g.edges, q, tail[0], tail[|tail| - 1])
            && Sum(g, q) == k * Sum(g, cycle) + Sum(g, tail)
  {
    if k == 0 {
      assert Repeated(cycle, 0) + tail == tail;
    } else {
      PumpCycle(g, cycle, tail, k - 1);
      var q := Repeated(cycle, k - 1) + tail;
      assert q[0] == tail[0] && q[|q| - 1] == tail[|tail| - 1];
      JoinWalks(g.edges, cycle, q);
      SumOfJoin(g, cycle, q);
      assert Repeated(cycle, k) + tail == cycle + q;
      assert k * Sum(g, cycle) == (k - 1) * Sum(g, cycle) + Sum(g, cycle);
    }
  }

  /** If a walk to the target repeats a node and the cycle costs stack, then the
      walks to the target have no largest frame sum at all. */
  lemma NoMaximumOnCycle(g: Graph, start: string, target: string, p: seq<string>, i: nat, j: nat, bound: nat)
    requires Connects(g.edges, p, start, target) && i < j < |p| && p[i] == p[j] && Sum(g, p[i..j]) > 0
    ensures exists q :: Connects(g.edges, q, start, target) && Sum(g, q) > bound
  {
    var first, cycle, last := p[0..j], p[i..j], p[j..|p|];
    SliceIsWalk(g.edges, p, 0, j);
    SliceIsWalk(g.edges, p, i, j);
    SliceIsWalk(g.edges, p, j, |p|);
    assert p[j] in Successors(g.edges, p[j - 1]);
    PumpCycle(g, cycle, last, bound + 1);
    var q := Repeated(cycle, bound + 1) + last;
    JoinWalks(g.edges, first, q);
    SumOfJoin(g, first, q);
    ProductIsLarge(bound + 1, Sum(g, cycle));
    assert Connects(g.edges, first + q, start, target);
  }

  lemma ProductIsLarge(k: nat, n: nat)
    requires n > 0
    ensures k * n >= k
  {
  }

  /** Every repetition on a walk from the start costs stack, as it does if every
      function has a frame. */
  ghost predicate RepetitionsCost(g: Graph, start: string) {
    forall p, i: nat, j: nat {:trigger p[i..j], IsWalk(g.edges, p)} ::
      IsWalk(g.edges, p) && p[0] == start && i < j < |p| && p[i] == p[j] ==> Sum(g, p[i..j]) > 0
  }

  /** Then acyclicity is not only enough but needed for the depth to be exact. */
  lemma LongestExactlyIfAcyclic(g: Graph, start: string, target: string, depth: int, path: seq<string>)
    requires RepetitionsCost(g, start)
    requires AcyclicBetween(g, start, target) ==> IsLongest(g, start, target, depth, path)
    ensures IsLongest(g, start, target, depth, path) <==> AcyclicBetween(g, start, target)
  {
    if IsLongest(g, start, target, depth, path) && !AcyclicBetween(g, start, target) {
      var p :| IsWalk(g.edges, p) && p[0] == start && Reaches(g.edges, p[|p| - 1], target) && !Distinct(p);
      var i, j :| 0 <= i < j < |p| && p[i] == p[j];
      var q :| Connects(g.edges, q, p[|p| - 1], target);
      Glue(g, p, q);
      var all := p + q[1..];
      assert all[i..j] == p[i..j];
      NoMaximumOnCycle(g, start, target, all, i, j, depth);
    }
  }

  lemma DeepestExactlyIfAcyclic(g: Graph, root: string, depth: int, path: seq<string>)
    requires RepetitionsCost(g, root)
    requires AcyclicFrom(g, root) ==> IsDeepest(g, root, depth, path)
    ensures IsDeepest(g, root, depth, path) <==> AcyclicFrom(g, root)
  {
    if IsDeepest(g, root, depth, path) && !AcyclicFrom(g, root) {
      var p :| IsWalk(g.edges, p) && p[0] == root && !Distinct(p);
      var i, j :| 0 <= i < j < |p| && p[i] == p[j];
      assert Sum(g, p[i..j]) > 0;
      NoMaximumOnCycle(g, root, p[|p| - 1], p, i, j, depth);
    }
  }

  // ----- the reported chain

  lemma AcyclicContinues(g: Graph, root: string, via: string, p: seq<string>)
    requires AcyclicFrom(g, root) && Connects(g.edges, p, root, via)
    ensures AcyclicFrom(g, via)
  {
    forall q | IsWalk(g.edges, q) && q[0] == via ensures Distinct(q) {
      Glue(g, p, q);
      var all := p + q[1..];
      assert Distinct(all);
      forall i, j | 0 <= i < j < |q| ensures q[i] != q[j] {
        assert q[i] == all[|p| - 1 + i] && q[j] == all[|p| - 1 + j];
      }
    }
  }

  /** Two walks that share a node join there, and its frame counts once. */
  lemma Glue(g: Graph, p: seq<string>, q: seq<string>)
    requires IsWalk(g.edges, p) && IsWalk(g.edges, q) && p[|p| - 1] == q[0]
    ensures Connects(g.edges, p + q[1..], p[0], q[|q| - 1])
    ensures Sum(g, p + q[1..]) == Sum(g, p) + Sum(g, q) - Frame(g, q[0])
  {
    if |q| > 1 {
      TailIsWalk(g.edges, q);
      JoinWalks(g.edges, p, q[1..]);
    } else {
      assert p + q[1..] == p;
    }
    SumOfJoin(g, p, q[1..]);
  }

  /** The joined path is one simple walk with the reported sums. */
  lemma ChainIsGenuine(
    g: Graph, root: string, via: string, handoff: string,
    prefix: seq<string>, middle: seq<string>, below: seq<string>)
    requires AcyclicFrom(g, root) && Connects(g.edges, prefix, root, via) && Connects(g.edges, middle, via, handoff)
    requires IsWalk(g.edges, below) && below[0] == handoff
    ensures var path := prefix + middle[1..];
            && Connects(g.edges, path, root, handoff) && via in path
            && Sum(g, path) == Sum(g, prefix) + Sum(g, middle) - Frame(g, via)
            && IsWalk(g.edges, path + below[1..]) && Distinct(path + below[1..])
            && Sum(g, path + below[1..]) == Sum(g, path) + Sum(g, below) - Frame(g, handoff)
  {
    Glue(g, prefix, middle);
    var path := prefix + middle[1..];
    assert path[|prefix| - 1] == via;
    Glue(g, path, below);
  }

  /** A walk through both functions and on below the second costs at most `deep`. */
  ghost predicate BoundsChains(g: Graph, root: string, via: string, handoff: string, deep: int) {
    forall x, y, z ::
      Connects(g.edges, x, root, via) && Connects(g.edges, y, via, handoff) && IsWalk(g.edges, z) && z[0] == handoff
      ==> Sum(g, x + y[1..] + z[1..]) <= deep
  }

  /** No walk through both functions is deeper than the sum of the three maxima. */
  lemma ChainIsMaximal(
    g: Graph, root: string, via: string, handoff: string,
    prefix: (int, seq<string>), middle: (int, seq<string>), below: (int, seq<string>))
    requires IsLongest(g, root, via, prefix.0, prefix.1)
    requires IsLongest(g, via, handoff, middle.0, middle.1)
    requires IsDeepest(g, handoff, below.0, below.1)
    ensures BoundsChains(g, root, via, handoff, prefix.0 + middle.0 - Frame(g, via) + below.0 - Frame(g, handoff))
  {
    forall x, y, z | Connects(g.edges, x, root, via) && Connects(g.edges, y, via, handoff)
                     && IsWalk(g.edges, z) && z[0] == handoff
      ensures Sum(g, x + y[1..] + z[1..])
           <= prefix.0 + middle.0 - Frame(g, via) + below.0 - Frame(g, handoff)
    {
      Glue(g, x, y);
      Glue(g, x + y[1..], z);
    }
  }

  datatype Chain = Chain(toHandoff: int, deep: int, path: seq<string>, below: seq<string>)

  /** The reported path and the part below it form one simple walk through both
      functions, and the two reported depths are its frame sums. */
  ghost predicate GenuineChain(g: Graph, root: string, via: string, handoff: string, c: Chain) {
    && Connects(g.edges, c.path, root, handoff) && via in c.path && Sum(g, c.path) == c.toHandoff
    && Starts(c.below, handoff) && IsWalk(g.edges, c.path + c.below[1..]) && Distinct(c.path + c.below[1..])
    && Sum(g, c.path + c.below[1..]) == c.deep
  }

  lemma AcyclicFromIsBetween(g: Graph, root: string, target: string)
    requires AcyclicFrom(g, root)
    ensures AcyclicBetween(g, root, target)
  {
  }

  /** What the reported chain has to be. */
  ghost predicate ExactChain(g: Graph, root: string, via: string, handoff: string, c: Chain) {
    GenuineChain(g, root, via, handoff, c) && BoundsChains(g, root, via, handoff, c.deep)
  }

  lemma AllMaximal(
    g: Graph, root: string, via: string, handoff: string,
    prefix: (int, seq<string>), middle: (int, seq<string>), below: (int, seq<string>))
    requires AcyclicFrom(g, root)
    requires AcyclicBetween(g, root, via) ==> IsLongest(g, root, via, prefix.0, prefix.1)
    requires AcyclicBetween(g, via, handoff) ==> IsLongest(g, via, handoff, middle.0, middle.1)
    requires AcyclicFrom(g, handoff) ==> IsDeepest(g, handoff, below.0, below.1)
    ensures IsLongest(g, root, via, prefix.0, prefix.1) && IsLongest(g, via, handoff, middle.0, middle.1)
    ensures IsDeepest(g, handoff, below.0, below.1)
  {
    AcyclicFromIsBetween(g, root, via);
    AcyclicContinues(g, root, via, prefix.1);
    AcyclicFromIsBetween(g, via, handoff);
    AcyclicContinues(g, via, handoff, middle.1);
  }

  /** From the three searches' own contracts to the chain's. */
  lemma ChainIsExact(
    g: Graph, root: string, via: string, handoff: string,
    prefix: (int, seq<string>), middle: (int, seq<string>), below: (int, seq<string>), c: Chain)
    requires AcyclicFrom(g, root) && middle.1 != []
    requires AcyclicBetween(g, root, via) ==> IsLongest(g, root, via, prefix.0, prefix.1)
    requires AcyclicBetween(g, via, handoff) ==> IsLongest(g, via, handoff, middle.0, middle.1)
    requires AcyclicFrom(g, handoff) ==> IsDeepest(g, handoff, below.0, below.1)
    requires c.toHandoff == prefix.0 + middle.0 - Frame(g, via) && c.path == prefix.1 + middle.1[1..]
    requires c.deep == c.toHandoff + below.0 - Frame(g, handoff) && c.below == below.1
    ensures ExactChain(g, root, via, handoff, c)
  {
    AllMaximal(g, root, via, handoff, prefix, middle, below);
    ChainIsGenuine(g, root, via, handoff, prefix.1, middle.1, below.1);
    ChainIsMaximal(g, root, via, handoff, prefix, middle, below);
  }

  /** The chain root -> via -> handoff and below: the two overlapping frames are
      taken off once each. Without reachable cycles the reported depth belongs to
      one simple walk through both functions, and no such walk is deeper. */
  method AnalyseChain(g: Graph, root: string, via: string, handoff: string) returns (result: Option<Chain>)
    ensures result.None? <==> !Reaches(g.edges, root, via) || !Reaches(g.edges, via, handoff)
    ensures result.Some? && AcyclicFrom(g, root) ==>
              ExactChain(g, root, via, handoff, result.value)
  {
    var prefix := LongestPath(g, root, via);
    if prefix.None? {
      return None;
    }
    var middle := LongestPath(g, via, handoff);
    if middle.None? {
      return None;
    }
    var toHandoff := prefix.value.0 + middle.value.0 - Frame(g, via);
    var path := prefix.value.1 + middle.value.1[1..];
    var below, belowPath := Deepest(g, handoff);
    var deep := toHandoff + below - Frame(g, handoff);
    result := Some(Chain(toHandoff, deep, path, belowPath));
    if AcyclicFrom(g, root) {
      ChainIsExact(g, root, via, handoff, prefix.value, middle.value, (below, belowPath), result.value);
    }
  }
}
