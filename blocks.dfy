/**
 * The hidden block sequence of a game (`generateBalancedBlocks` in src/Game.jsx):
 * five X and five O, shuffled by one Fisher-Yates pass. The random index drawn at
 * loop position `i` is supplied as `picks[i]`, any value in `0..i`; the model does
 * not speak about how uniformly those values are drawn.
 */
module Blocks {
  import opened WinDetector

  const BlockCount := 10

  /** The sequence the shuffle starts from. */
  const Unshuffled: seq<Symbol> := [X, X, X, X, X, O, O, O, O, O]

  /** Ten blocks, five of each symbol. */
  predicate Balanced(blocks: seq<Symbol>) {
    |blocks| == BlockCount && multiset(blocks)[X] == 5 && multiset(blocks)[O] == 5
  }

  /** `picks[i]` is the index `Math.floor(Math.random() * (i + 1))` drawn at position `i`. */
  predicate ValidPicks(picks: seq<nat>) {
    |picks| == BlockCount && forall i :: 0 <= i < |picks| ==> picks[i] <= i
  }

  function Swap(s: seq<Symbol>, i: nat, j: nat): (r: seq<Symbol>)
    requires i < |s| && j < |s|
    ensures |r| == |s| && multiset(r) == multiset(s)
    ensures r[i] == s[j] && r[j] == s[i]
    ensures forall k :: 0 <= k < |s| && k != i && k != j ==> r[k] == s[k]
  {
    s[i := s[j]][j := s[i]]
  }

  /** The swaps the loop still has to make at positions `i, i-1, ..., 1`, applied to `s`. */
  function ShuffleDown(s: seq<Symbol>, picks: seq<nat>, i: nat): (r: seq<Symbol>)
    requires ValidPicks(picks) && |s| == BlockCount && i < BlockCount
    ensures |r| == |s| && multiset(r) == multiset(s)
    decreases i
  {
    if i == 0 then s else ShuffleDown(Swap(s, i, picks[i]), picks, i - 1)
  }

  /** The blocks one shuffle produces for the given random choices. */
  function Shuffled(picks: seq<nat>): seq<Symbol>
    requires ValidPicks(picks)
  {
    ShuffleDown(Unshuffled, picks, BlockCount - 1)
  }

  function CountOf(s: seq<Symbol>, p: Symbol): nat {
    if s == [] then 0 else (if s[0] == p then 1 else 0) + CountOf(s[1..], p)
  }

  lemma {:induction false} MultisetCount(s: seq<Symbol>, p: Symbol)
    ensures multiset(s)[p] == CountOf(s, p)
  {
    if s != [] {
      assert s == [s[0]] + s[1..];
      MultisetCount(s[1..], p);
    }
  }

  lemma UnshuffledBalanced()
    ensures Balanced(Unshuffled)
  {
    assert CountOf(Unshuffled, X) == 5 && CountOf(Unshuffled, O) == 5;
    MultisetCount(Unshuffled, X);
    MultisetCount(Unshuffled, O);
  }

  /** Whatever the random choices, the shuffle keeps five of each symbol. */
  lemma ShuffledBalanced(picks: seq<nat>)
    requires ValidPicks(picks)
    ensures Balanced(Shuffled(picks))
  {
    UnshuffledBalanced();
  }

  /** `generateBalancedBlocks`: fill ten slots, then swap from the last slot down. */
  method GenerateBalancedBlocks(picks: seq<nat>) returns (blocks: seq<Symbol>)
    requires ValidPicks(picks)
    ensures blocks == Shuffled(picks)
    ensures Balanced(blocks)
  {
    var a := new Symbol[BlockCount](k => if 0 <= k < |Unshuffled| then Unshuffled[k] else X);
    assert a[..] == Unshuffled;
    ShuffledBalanced(picks);
    var i := a.Length - 1;
    while i > 0
      invariant 0 <= i < a.Length
      invariant ShuffleDown(a[..], picks, i) == Shuffled(picks)
    {
      var j := picks[i];
      ghost var before := a[..];
      a[i], a[j] := a[j], a[i];
      assert a[..] == before[i := before[j]][j := before[i]];
      i := i - 1;
    }
    blocks := a[..];
  }
}
