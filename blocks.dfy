/**
 * Sequences of blocks laid end to end: the shape of a scan's bus traffic
 * (one block of events per probe) and of a loaded catalog (at most one entry
 * per line).
 */
module Blocks {
  /** The blocks in order, concatenated. */
  function Flatten<T>(blocks: seq<seq<T>>): seq<T>
  {
    if blocks == [] then [] else Flatten(blocks[..|blocks| - 1]) + blocks[|blocks| - 1]
  }

  lemma {:induction false} FlattenOne<T>(block: seq<T>)
    ensures Flatten([block]) == block
  {
    assert [block][..0] == [];
  }

  lemma {:induction false} SliceOfFront<T>(a: seq<T>, b: seq<T>, i: nat, k: nat)
    requires i <= k <= |a|
    ensures (a + b)[i..k] == a[i..k]
  {
    assert forall t :: i <= t < k ==> (a + b)[t] == a[t];
  }

  lemma {:induction false} SliceOfRight<T>(a: seq<T>, b: seq<T>, i: nat, k: nat)
    requires i <= k <= |b|
    ensures (a + b)[|a| + i..|a| + k] == b[i..k]
  {
    assert forall t :: i <= t < k ==> (a + b)[|a| + t] == b[t];
  }

  lemma {:induction false} SliceOfBack<T>(a: seq<T>, b: seq<T>, i: nat)
    requires i == |a|
    ensures (a + b)[i..i + |b|] == b
  {
    assert forall t :: 0 <= t < |b| ==> (a + b)[i + t] == b[t];
  }

  lemma {:induction false} FlattenLength<T>(blocks: seq<seq<T>>, n: nat)
    requires forall i :: 0 <= i < |blocks| ==> |blocks[i]| == n
    ensures |Flatten(blocks)| == n * |blocks|
  {
    if blocks != [] {
      var init := blocks[..|blocks| - 1];
      FlattenLength(init, n);
      assert n * |blocks| == n * |init| + n;
    }
  }

  /** Block j of blocks of n elements each sits at n * j once flattened. */
  lemma {:induction false} FlattenAt<T>(blocks: seq<seq<T>>, n: nat, j: nat)
    requires forall i :: 0 <= i < |blocks| ==> |blocks[i]| == n
    requires j < |blocks|
    ensures n * j + n <= |Flatten(blocks)| && Flatten(blocks)[n * j..n * j + n] == blocks[j]
  {
    var init, last := blocks[..|blocks| - 1], blocks[|blocks| - 1];
    FlattenLength(blocks, n);
    FlattenLength(init, n);
    assert Flatten(blocks) == Flatten(init) + last;
    if j < |init| {
      FlattenAt(init, n, j);
      SliceOfFront(Flatten(init), last, n * j, n * j + n);
    } else {
      SliceOfBack(Flatten(init), last, n * j);
    }
  }

  /** Blocks of n elements each, flattened: block j sits at n * j. */
  lemma {:induction false} FlattenBlocks<T>(blocks: seq<seq<T>>, n: nat)
    requires forall i :: 0 <= i < |blocks| ==> |blocks[i]| == n
    ensures |Flatten(blocks)| == n * |blocks|
    ensures forall j :: 0 <= j < |blocks| ==> n * j + n <= |Flatten(blocks)| && Flatten(blocks)[n * j..n * j + n] == blocks[j]
  {
    FlattenLength(blocks, n);
    forall j | 0 <= j < |blocks|
      ensures n * j + n <= |Flatten(blocks)| && Flatten(blocks)[n * j..n * j + n] == blocks[j]
    {
      FlattenAt(blocks, n, j);
    }
  }

  /** Flattening blocks that each hold x once holds x once per block. */
  lemma {:induction false} FlattenCount<T>(blocks: seq<seq<T>>, x: T)
    requires forall i :: 0 <= i < |blocks| ==> multiset(blocks[i])[x] == 1
    ensures multiset(Flatten(blocks))[x] == |blocks|
  {
    if blocks != [] {
      var init := blocks[..|blocks| - 1];
      FlattenCount(init, x);
      assert multiset(Flatten(blocks)) == multiset(Flatten(init)) + multiset(blocks[|blocks| - 1]);
    }
  }

  /** An element of the flattened blocks is an element of one of them, and back. */
  lemma {:induction false} FlattenMember<T>(blocks: seq<seq<T>>)
    ensures forall x :: x in Flatten(blocks) ==> exists i :: 0 <= i < |blocks| && x in blocks[i]
    ensures forall i, x :: 0 <= i < |blocks| && x in blocks[i] ==> x in Flatten(blocks)
  {
    if blocks != [] {
      var init, last := blocks[..|blocks| - 1], blocks[|blocks| - 1];
      FlattenMember(init);
      assert Flatten(blocks) == Flatten(init) + last;
      forall i, x | 0 <= i < |blocks| && x in blocks[i]
        ensures x in Flatten(blocks)
      {
        if i < |init| {
          assert x in init[i];
        }
      }
      forall x | x in Flatten(blocks)
        ensures exists i :: 0 <= i < |blocks| && x in blocks[i]
      {
        if x in Flatten(init) {
          var i :| 0 <= i < |init| && x in init[i];
          assert x in blocks[i];
        } else {
          assert x in blocks[|blocks| - 1];
        }
      }
    }
  }

  /** Blocks of at most one element flatten to no more elements than blocks. */
  lemma {:induction false} FlattenShort<T>(blocks: seq<seq<T>>)
    requires forall i :: 0 <= i < |blocks| ==> |blocks[i]| <= 1
    ensures |Flatten(blocks)| <= |blocks|
  {
    if blocks != [] {
      FlattenShort(blocks[..|blocks| - 1]);
    }
  }

  /** Flattening distributes over putting two runs of blocks one after the other. */
  lemma {:induction false} FlattenAppend<T>(blocks: seq<seq<T>>, more: seq<seq<T>>)
    ensures Flatten(blocks + more) == Flatten(blocks) + Flatten(more)
    decreases |more|
  {
    if more == [] {
      assert blocks + more == blocks;
    } else {
      var init := more[..|more| - 1];
      assert (blocks + more)[..|blocks + more| - 1] == blocks + init;
      FlattenAppend(blocks, init);
    }
  }
}
