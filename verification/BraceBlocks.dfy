/** The brace blocks of a masked source text and the blocks around a position. */
module BraceBlocks {
  type Block = (nat, nat)

  function Delta(c: char): int { if c == '{' then 1 else if c == '}' then -1 else 0 }

  /** Opening minus closing braces in code[i..j]. */
  function Depth(code: string, i: nat, j: nat): int
    requires i <= j <= |code|
  {
    if i == j then 0 else Depth(code, i, j - 1) + Delta(code[j - 1])
  }

  lemma {:induction false} DepthSplits(code: string, i: nat, j: nat, k: nat)
    requires i <= j <= k <= |code|
    ensures Depth(code, i, k) == Depth(code, i, j) + Depth(code, j, k)
  {
    if j < k {
      DepthSplits(code, i, j, k - 1);
    }
  }

  /** The brace at `open` is not closed before `end`. */
  ghost predicate StaysOpen(code: string, open: nat, end: nat)
    requires end <= |code|
  {
    && open < end && code[open] == '{'
    && forall k :: open < k <= end ==> Depth(code, open, k) >= 1
  }

  /** A brace pair with balanced text between. */
  ghost predicate IsBlock(code: string, b: Block) {
    && b.0 < b.1 < |code| && StaysOpen(code, b.0, b.1)
    && code[b.1] == '}' && Depth(code, b.0, b.1) == 1
  }

  ghost predicate Disjoint(a: Block, b: Block) { a.1 < b.0 || b.1 < a.0 }

  ghost predicate Inside(a: Block, b: Block) { b.0 < a.0 && a.1 < b.1 }

  /** Any two different blocks are disjoint or strictly nested. */
  ghost predicate Laminar(blocks: seq<Block>) {
    && (forall i :: 0 <= i < |blocks| ==> blocks[i].0 < blocks[i].1)
    && forall i, j :: 0 <= i < j < |blocks| ==>
         Disjoint(blocks[i], blocks[j]) || Inside(blocks[i], blocks[j]) || Inside(blocks[j], blocks[i])
  }

  /** In any text, however unbalanced, blocks never overlap partly. */
  lemma BlocksNest(code: string, a: Block, b: Block)
    requires IsBlock(code, a) && IsBlock(code, b) && a.0 <= b.0
    ensures a == b || Disjoint(a, b) || Inside(b, a)
  {
    CloseEndsDepth(code, a);
    CloseEndsDepth(code, b);
    if a.0 < b.0 <= a.1 <= b.1 {
      DepthSplits(code, a.0, b.0, a.1);
    }
  }

  lemma CloseEndsDepth(code: string, b: Block)
    requires IsBlock(code, b)
    ensures Depth(code, b.0, b.1 + 1) == 0
  {
  }

  /** Braces that stay open, from the outermost to the innermost: the innermost
      has depth one. */
  ghost predicate IsStack(code: string, stack: seq<nat>, end: nat)
    requires end <= |code|
  {
    && (forall i, j :: 0 <= i < j < |stack| ==> stack[i] < stack[j])
    && (forall i :: 0 <= i < |stack| ==>
          StaysOpen(code, stack[i], end) && Depth(code, stack[i], end) == |stack| - i)
    && forall open: nat :: open < end && StaysOpen(code, open, end) ==> open in stack
  }

  lemma OpenStep(code: string, open: nat, end: nat)
    requires open < end < |code|
    ensures StaysOpen(code, open, end + 1) <==> StaysOpen(code, open, end) && Depth(code, open, end + 1) >= 1
  {
  }

  lemma PushKeeps(code: string, stack: seq<nat>, end: nat)
    requires end < |code| && IsStack(code, stack, end) && code[end] == '{'
    ensures IsStack(code, stack + [end], end + 1)
    ensures forall open: nat :: !IsBlock(code, (open, end))
  {
    var s := stack + [end];
    assert Depth(code, end, end + 1) == 1 by { assert Depth(code, end, end) == 0; }
    forall i | 0 <= i < |stack| ensures StaysOpen(code, s[i], end + 1) { OpenStep(code, s[i], end); }
    forall open: nat | open < end + 1 && StaysOpen(code, open, end + 1) ensures open in s {
      if open < end {
        OpenStep(code, open, end);
      } else {
        assert s[|stack|] == end;
      }
    }
  }

  lemma PopKeeps(code: string, stack: seq<nat>, end: nat)
    requires end < |code| && IsStack(code, stack, end) && code[end] == '}' && stack != []
    ensures IsStack(code, stack[..|stack| - 1], end + 1)
    ensures forall open: nat :: IsBlock(code, (open, end)) <==> open == stack[|stack| - 1]
  {
    var s, top := stack[..|stack| - 1], stack[|stack| - 1];
    forall i | 0 <= i < |s| ensures StaysOpen(code, s[i], end + 1) { OpenStep(code, s[i], end); }
    forall open: nat | open < end + 1 && StaysOpen(code, open, end + 1) ensures open in s {
      if open < end {
        OpenStep(code, open, end);
        var i :| 0 <= i < |stack| && stack[i] == open;
        assert i < |s| && s[i] == open;
      }
    }
    forall open: nat | IsBlock(code, (open, end)) ensures open == top {
      var i :| 0 <= i < |stack| && stack[i] == open;
    }
  }

  lemma OtherKeeps(code: string, stack: seq<nat>, end: nat)
    requires end < |code| && IsStack(code, stack, end) && code[end] != '{' && (code[end] == '}' ==> stack == [])
    ensures IsStack(code, stack, end + 1)
    ensures forall open: nat :: !IsBlock(code, (open, end))
  {
    forall i | 0 <= i < |stack| ensures StaysOpen(code, stack[i], end + 1) { OpenStep(code, stack[i], end); }
    forall open: nat | open < end + 1 && StaysOpen(code, open, end + 1) ensures open in stack {
      if open < end {
        OpenStep(code, open, end);
      }
    }
  }

  /** The blocks closed before `end`, each once, in the order of their closing braces. */
  ghost predicate AreBlocks(code: string, blocks: seq<Block>, end: nat) {
    && (forall i :: 0 <= i < |blocks| ==> IsBlock(code, blocks[i]) && blocks[i].1 < end)
    && (forall i, j :: 0 <= i < j < |blocks| ==> blocks[i].1 < blocks[j].1)
    && forall b: Block :: IsBlock(code, b) && b.1 < end ==> b in blocks
  }

  method FindBlocks(code: string) returns (blocks: seq<Block>)
    ensures AreBlocks(code, blocks, |code|)
    ensures Laminar(blocks)
  {
    blocks := [];
    var stack: seq<nat> := [];
    for index := 0 to |code|
      invariant IsStack(code, stack, index) && AreBlocks(code, blocks, index)
    {
      if code[index] == '{' {
        PushKeeps(code, stack, index);
        NothingClosed(code, blocks, index);
        stack := stack + [index];
      } else if code[index] == '}' && stack != [] {
        PopKeeps(code, stack, index);
        BlockClosed(code, blocks, stack[|stack| - 1], index);
        blocks := blocks + [(stack[|stack| - 1], index)];
        stack := stack[..|stack| - 1];
      } else {
        OtherKeeps(code, stack, index);
        NothingClosed(code, blocks, index);
      }
    }
    BlocksAreLaminar(code, blocks, |code|);
  }

  lemma NothingClosed(code: string, blocks: seq<Block>, end: nat)
    requires AreBlocks(code, blocks, end) && forall open: nat :: !IsBlock(code, (open, end))
    ensures AreBlocks(code, blocks, end + 1)
  {
    forall b: Block | IsBlock(code, b) && b.1 < end + 1 ensures b in blocks {
      assert b == (b.0, b.1);
    }
  }

  lemma BlockClosed(code: string, blocks: seq<Block>, open: nat, end: nat)
    requires AreBlocks(code, blocks, end)
    requires forall o: nat :: IsBlock(code, (o, end)) <==> o == open
    ensures AreBlocks(code, blocks + [(open, end)], end + 1)
  {
    var longer := blocks + [(open, end)];
    forall b: Block | IsBlock(code, b) && b.1 < end + 1 ensures b in longer {
      if b.1 == end {
        assert IsBlock(code, (b.0, end));
        assert longer[|blocks|] == b;
      }
    }
  }

  lemma BlocksAreLaminar(code: string, blocks: seq<Block>, end: nat)
    requires AreBlocks(code, blocks, end)
    ensures Laminar(blocks)
  {
    forall i, j | 0 <= i < j < |blocks|
      ensures Disjoint(blocks[i], blocks[j]) || Inside(blocks[i], blocks[j]) || Inside(blocks[j], blocks[i])
    {
      if blocks[i].0 <= blocks[j].0 {
        BlocksNest(code, blocks[i], blocks[j]);
      } else {
        BlocksNest(code, blocks[j], blocks[i]);
      }
    }
  }

  // ----- the blocks around a position

  predicate Contains(b: Block, position: nat) { b.0 < position < b.1 }

  /** Innermost first: each block lies strictly inside the next. */
  ghost predicate Growing(found: seq<Block>) {
    forall i, j :: 0 <= i < j < |found| ==> Inside(found[i], found[j])
  }

  function Size(b: Block): int { b.1 - b.0 }

  /** Stable sorting by size, one element at a time. */
  function InsertBySize(b: Block, sorted: seq<Block>): seq<Block> {
    if sorted == [] then [b]
    else if Size(sorted[0]) <= Size(b) then [sorted[0]] + InsertBySize(b, sorted[1..])
    else [b] + sorted
  }

  function SortBySize(blocks: seq<Block>): seq<Block> {
    if blocks == [] then [] else InsertBySize(blocks[|blocks| - 1], SortBySize(blocks[..|blocks| - 1]))
  }

  lemma {:induction false} InsertGrows(b: Block, sorted: seq<Block>)
    requires Growing(sorted) && forall x :: x in sorted ==> Inside(b, x) || Inside(x, b)
    ensures Growing(InsertBySize(b, sorted))
    ensures forall x :: x in InsertBySize(b, sorted) <==> x == b || x in sorted
  {
    if sorted != [] {
      assert sorted == [sorted[0]] + sorted[1..];
      assert forall x :: x in sorted <==> x == sorted[0] || x in sorted[1..];
      if Size(sorted[0]) <= Size(b) {
        InsertGrows(b, sorted[1..]);
        var r := InsertBySize(b, sorted);
        forall i, j | 0 <= i < j < |r| ensures Inside(r[i], r[j]) {
          assert r[j] in InsertBySize(b, sorted[1..]);
        }
      } else {
        assert Inside(b, sorted[0]);
      }
    }
  }

  lemma {:induction false} SortGrows(blocks: seq<Block>)
    requires forall i, j :: 0 <= i < j < |blocks| ==> Inside(blocks[i], blocks[j]) || Inside(blocks[j], blocks[i])
    ensures Growing(SortBySize(blocks))
    ensures forall x :: x in SortBySize(blocks) <==> x in blocks
  {
    if blocks != [] {
      var front, last := blocks[..|blocks| - 1], blocks[|blocks| - 1];
      SortGrows(front);
      InsertGrows(last, SortBySize(front));
      assert blocks == front + [last];
    }
  }

  /** Exactly the enclosing blocks, as a strictly growing chain. */
  method ContainingBlocks(blocks: seq<Block>, position: nat) returns (found: seq<Block>)
    requires Laminar(blocks)
    ensures forall b :: b in found <==> b in blocks && Contains(b, position)
    ensures Growing(found)
  {
    found := [];
    for i := 0 to |blocks|
      invariant forall b :: b in found <==> b in blocks[..i] && Contains(b, position)
      invariant forall j, k :: 0 <= j < k < |found| ==> Inside(found[j], found[k]) || Inside(found[k], found[j])
    {
      assert blocks[..i + 1] == blocks[..i] + [blocks[i]];
      if Contains(blocks[i], position) {
        forall j | 0 <= j < |found| ensures Inside(found[j], blocks[i]) || Inside(blocks[i], found[j]) {
          assert found[j] in found;
          var k :| 0 <= k < i && blocks[k] == found[j];
        }
        found := found + [blocks[i]];
      }
    }
    assert blocks[..|blocks|] == blocks;
    SortGrows(found);
    found := SortBySize(found);
  }
}
