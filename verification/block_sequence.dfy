/** The line solver's block sequence of src/solver/block_sequence.hpp: a
    vector of blocks (a position, a length and a colour on one line) with
    size queries, indexed access and forward and reverse iteration. Only the
    interface of the class is part of this model; how the sliding members
    move blocks is not. */
module Solver {
  import opened Basics
  import opened Grids

  /** One block of a line: `length` cells of `color` starting at `pos`. */
  datatype Block = Block(pos: nat, length: nat, color: Color)

  /** A default-initialised block: the member initialisers set position and
      length to zero; the colour is a default-constructed one. */
  function DefaultBlock(): (b: Block)
    ensures b.pos == 0 && b.length == 0
  {
    Block(0, 0, DefaultColor)
  }

  /** Which end the blocks are packed against when the sequence is built. */
  datatype Init = Left | Right

  /** The blocks in the order reverse iteration visits them. */
  function Reversed(s: seq<Block>): (r: seq<Block>)
    ensures |r| == |s|
    ensures forall i :: 0 <= i < |s| ==> r[i] == s[|s| - 1 - i]
  {
    if s == [] then [] else Reversed(s[1..]) + [s[0]]
  }

  /** Reverse iteration twice over gives back the stored order. */
  lemma ReversedInvolution(s: seq<Block>)
    ensures Reversed(Reversed(s)) == s
  {
  }

  /** Reverse iteration visits the same blocks as forward iteration, each as
      often. */
  lemma {:induction false} ReversedSameBlocks(s: seq<Block>)
    ensures multiset(Reversed(s)) == multiset(s)
  {
    if s != [] {
      ReversedSameBlocks(s[1..]);
      assert s == [s[0]] + s[1..];
    }
  }

  class BlockSequence {
    var blocks: seq<Block>
    var lineSize: nat

    /** `BlockSequence(line_size, line_clues, init_type)`; `init_type` is
        `Init::left` when not given. How the blocks are laid out from the
        clues is not part of this model, so the new sequence is
        unconstrained. */
    constructor (lineSize: nat, lineClues: seq<Clue>, initType: Init := Init.Left)
    {
    }

    /** `slide_left()`: may move the blocks; what it reports and where the
        blocks end up are not part of this model. */
    method SlideLeft() returns (moved: bool)
      modifies this
    {
      blocks := *;
      moved := *;
    }

    /** `slide_right()`: as `SlideLeft`, towards the other end. */
    method SlideRight() returns (moved: bool)
      modifies this
    {
      blocks := *;
      moved := *;
    }

    function Size(): nat
      reads this
    {
      |blocks|
    }

    /** `empty()`. */
    function Empty(): (e: bool)
      reads this
      ensures e <==> Size() == 0
    {
      blocks == []
    }

    /** `operator[](index)` for reading. */
    function Get(index: nat): (b: Block)
      reads this
      requires index < Size()
      ensures b in blocks
      ensures b == blocks[index]
    {
      blocks[index]
    }

    /** `operator[](index)` for writing: only block `index` changes. */
    method Set(index: nat, b: Block)
      requires index < Size()
      modifies this
      ensures Size() == old(Size())
      ensures Get(index) == b
      ensures forall i :: 0 <= i < Size() && i != index ==> Get(i) == old(Get(i))
      ensures lineSize == old(lineSize)
    {
      blocks := blocks[index := b];
    }

    /** Forward iteration from `begin()` to `end()`: the blocks in stored
        order. */
    method Forward() returns (visited: seq<Block>)
      ensures visited == blocks
    {
      visited := [];
      var i := 0;
      while i < |blocks|
        invariant i <= |blocks|
        invariant visited == blocks[..i]
      {
        visited := visited + [blocks[i]];
        i := i + 1;
      }
    }

    /** Reverse iteration from `rbegin()` to `rend()`: the same blocks, last
        first. */
    method Backward() returns (visited: seq<Block>)
      ensures visited == Reversed(blocks)
    {
      visited := [];
      var i := |blocks|;
      while i > 0
        invariant 0 <= i <= |blocks|
        invariant |visited| == |blocks| - i
        invariant forall k :: 0 <= k < |visited| ==> visited[k] == blocks[|blocks| - 1 - k]
      {
        i := i - 1;
        visited := visited + [blocks[i]];
      }
    }
  }
}
