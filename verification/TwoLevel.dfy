/** TwoLevelIterator (table/two_level_iterator.cc): a cursor over the pairs of all blocks an index
    leads to, past blocks that are empty. */
module TwoLevel {
  import opened Format
  import opened Coding
  import opened Block

  /** The place of pair i of block b among all pairs. */
  function Place(blocks: seq<seq<Pair>>, b: nat, i: nat): nat
    requires b <= |blocks|
  {
    |Joined(blocks[..b])| + i
  }

  lemma {:induction false} PlaceOf(blocks: seq<seq<Pair>>, b: nat, i: nat)
    requires b < |blocks| && i < |blocks[b]|
    ensures Place(blocks, b, i) < |Joined(blocks)| && Joined(blocks)[Place(blocks, b, i)] == blocks[b][i]
    decreases |blocks|
  {
    var init := blocks[..|blocks| - 1];
    if b < |init| {
      PlaceOf(init, b, i);
      assert init[..b] == blocks[..b];
    }
  }

  lemma NextBlock(blocks: seq<seq<Pair>>, b: nat)
    requires b < |blocks|
    ensures Place(blocks, b + 1, 0) == Place(blocks, b, |blocks[b]|)
  {
    assert blocks[..b + 1][..b] == blocks[..b];
  }

  lemma Ends(blocks: seq<seq<Pair>>)
    ensures Place(blocks, 0, 0) == 0 && Place(blocks, |blocks|, 0) == |Joined(blocks)|
  {
    assert blocks[..|blocks|] == blocks;
  }

  lemma {:induction false} FlatOrigin(blocks: seq<seq<Pair>>, x: nat) returns (b: nat, i: nat)
    requires x < |Joined(blocks)|
    ensures b < |blocks| && i < |blocks[b]| && Place(blocks, b, i) == x && Joined(blocks)[x] == blocks[b][i]
    decreases |blocks|
  {
    var init := blocks[..|blocks| - 1];
    if x < |Joined(init)| {
      b, i := FlatOrigin(init, x);
      assert init[..b] == blocks[..b];
    } else {
      b, i := |blocks| - 1, x - |Joined(init)|;
    }
  }

  /** The index key of a block is at or after its keys and before those of later blocks. */
  ghost predicate Leads(keys: seq<Bytes>, blocks: seq<seq<Pair>>, less: Order) {
    && |keys| == |blocks|
    && (forall b, i :: 0 <= b < |blocks| && 0 <= i < |blocks[b]| ==> !less(keys[b], blocks[b][i].key))
    && (forall b, c, i :: 0 <= b < c < |blocks| && 0 <= i < |blocks[c]| ==> less(keys[b], blocks[c][i].key))
  }

  datatype Data = Data(block: nat, pos: nat)

  class TwoLevelIterator {
    const keys: seq<Bytes>
    const blocks: seq<seq<Pair>>
    const less: Order
    /** The position of the index iterator, |blocks| when invalid. */
    var index: nat
    /** The data iterator: its block, and its position there, the block's size when invalid. */
    var data: Option<Data>

    /** The place of the cursor among all pairs, their number when invalid. */
    ghost function At(): nat
      reads this
      requires Ok()
    {
      if IsValid() then Place(blocks, data.value.block, data.value.pos) else |Joined(blocks)|
    }

    ghost predicate Ok()
      reads this
    {
      && index <= |blocks|
      && (data.Some? ==> data.value.block < |blocks| && data.value.pos <= |blocks[data.value.block]|)
    }

    /** A valid cursor stands in the block of the index iterator. */
    ghost predicate Valid()
      reads this
    {
      Ok() && (IsValid() ==> data.value.block == index)
    }

    predicate IsValid()
      reads this
    {
      data.Some? && data.value.block < |blocks| && data.value.pos < |blocks[data.value.block]|
    }

    constructor (keys: seq<Bytes>, blocks: seq<seq<Pair>>, less: Order)
      ensures Valid() && !IsValid() && this.keys == keys && this.blocks == blocks && this.less == less
    {
      this.keys, this.blocks, this.less := keys, blocks, less;
      index, data := |blocks|, None;
    }

    function Current(): (p: Pair)
      requires Valid() && IsValid()
      reads this
      ensures At() < |Joined(blocks)| && p == Joined(blocks)[At()]
    {
      PlaceOf(blocks, data.value.block, data.value.pos);
      blocks[data.value.block][data.value.pos]
    }

    /** InitDataBlock: an iterator over the index entry's block, kept when it is there already. */
    method InitDataBlock()
      requires Ok()
      modifies this`data
      ensures Ok() && (data.None? <==> index == |blocks|) && (data.Some? ==> data.value.block == index)
    {
      if index == |blocks| {
        data := None;
      } else if data.None? || data.value.block != index {
        data := Some(Data(index, |blocks[index]|));
      }
    }

    /** Forward past blocks that are exhausted or empty. `target` is where the cursor is due. */
    method SkipEmptyDataBlocksForward(ghost target: nat)
      requires Ok() && (data.None? <==> index == |blocks|) && (data.Some? ==> data.value.block == index)
      requires target == if index == |blocks| then |Joined(blocks)| else Place(blocks, index, data.value.pos)
      modifies this
      ensures Valid() && At() == target
    {
      while !IsValid()
        invariant Ok() && (data.None? <==> index == |blocks|) && (data.Some? ==> data.value.block == index)
        invariant target == if index == |blocks| then |Joined(blocks)| else Place(blocks, index, data.value.pos)
        decreases |blocks| - index
      {
        if index == |blocks| {
          data := None;
          return;
        }
        NextBlock(blocks, index);
        Ends(blocks);
        index := index + 1;
        InitDataBlock();
        if data.Some? { data := Some(Data(index, 0)); }
      }
    }

    /** Backward past blocks that are exhausted or empty; `before` pairs come before the cursor's
        present place, and the last of them is where it is due. */
    method SkipEmptyDataBlocksBackward(ghost before: nat)
      requires Ok() && (data.None? <==> index == |blocks|) && (data.Some? ==> data.value.block == index)
      requires if IsValid() then before == Place(blocks, index, data.value.pos) + 1
        else before == if index == |blocks| then 0 else Place(blocks, index, 0)
      modifies this
      ensures Valid() && At() == if before == 0 then |Joined(blocks)| else before - 1
    {
      while !IsValid()
        invariant Ok() && (data.None? <==> index == |blocks|) && (data.Some? ==> data.value.block == index)
        invariant if IsValid() then before == Place(blocks, index, data.value.pos) + 1
          else before == if index == |blocks| then 0 else Place(blocks, index, 0)
        decreases !IsValid(), if index == |blocks| then 0 else index + 1
      {
        if index == |blocks| {
          data := None;
          return;
        }
        if index == 0 {
          Ends(blocks);
          index := |blocks|;
        } else {
          NextBlock(blocks, index - 1);
          index := index - 1;
        }
        InitDataBlock();
        if data.Some? {
          var size := |blocks[index]|;
          data := Some(Data(index, if size == 0 then 0 else size - 1));
        }
      }
    }

    method Next()
      requires Valid() && IsValid()
      modifies this
      ensures Valid() && At() == old(At()) + 1
    {
      data := Some(Data(data.value.block, data.value.pos + 1));
      SkipEmptyDataBlocksForward(old(At()) + 1);
    }

    /** Before the first pair the cursor becomes invalid. */
    method Prev()
      requires Valid() && IsValid()
      modifies this
      ensures Valid() && At() == if old(At()) == 0 then |Joined(blocks)| else old(At()) - 1
    {
      var d := data.value;
      data := Some(Data(d.block, if d.pos == 0 then |blocks[d.block]| else d.pos - 1));
      SkipEmptyDataBlocksBackward(old(At()));
    }

    method SeekToFirst()
      requires Ok()
      modifies this
      ensures Valid() && At() == 0
    {
      Ends(blocks);
      index := 0;
      InitDataBlock();
      if data.Some? { data := Some(Data(0, 0)); }
      SkipEmptyDataBlocksForward(0);
    }

    method SeekToLast()
      requires Ok()
      modifies this
      ensures Valid() && At() == if Joined(blocks) == [] then 0 else |Joined(blocks)| - 1
    {
      Ends(blocks);
      index := if blocks == [] then 0 else |blocks| - 1;
      InitDataBlock();
      if data.Some? {
        var size := |blocks[index]|;
        data := Some(Data(index, if size == 0 then 0 else size - 1));
        NextBlock(blocks, index);
      }
      SkipEmptyDataBlocksBackward(|Joined(blocks)|);
    }

    /** The first of the keys that is not before the target. */
    method SeekKeys(ks: seq<Bytes>, target: Bytes) returns (j: nat)
      ensures j <= |ks| && (forall i :: 0 <= i < j ==> less(ks[i], target)) && (j < |ks| ==> !less(ks[j], target))
    {
      j := 0;
      while j < |ks| && less(ks[j], target)
        invariant j <= |ks| && forall i :: 0 <= i < j ==> less(ks[i], target)
      {
        j := j + 1;
      }
    }

    method SeekPairs(ps: seq<Pair>, target: Bytes) returns (j: nat)
      ensures j <= |ps| && (forall i :: 0 <= i < j ==> less(ps[i].key, target))
      ensures (j < |ps| ==> !less(ps[j].key, target))
    {
      j := 0;
      while j < |ps| && less(ps[j].key, target)
        invariant j <= |ps| && forall i :: 0 <= i < j ==> less(ps[i].key, target)
      {
        j := j + 1;
      }
    }

    /** To the first pair at or after the target. */
    method Seek(target: Bytes)
      requires Ok() && Strict(less) && Leads(keys, blocks, less)
      modifies this
      ensures Valid() && At() <= |Joined(blocks)| && (forall x :: 0 <= x < At() ==> less(Joined(blocks)[x].key, target))
      ensures At() < |Joined(blocks)| ==> !less(Joined(blocks)[At()].key, target)
    {
      hide Strict, Leads;
      var j := SeekKeys(keys, target);
      SameLength();
      index := j;
      InitDataBlock();
      ghost var due := |Joined(blocks)|;
      Ends(blocks);
      if data.Some? {
        var pos := SeekPairs(blocks[j], target);
        data := Some(Data(j, pos));
        due := Place(blocks, j, pos);
        SeekPlace(j, pos, target);
      } else {
        SeekEnd(target);
      }
      SkipEmptyDataBlocksForward(due);
    }

    lemma SameLength()
      requires Leads(keys, blocks, less)
      ensures |keys| == |blocks|
    {
    }

    lemma SeekEnd(target: Bytes)
      requires Strict(less) && Leads(keys, blocks, less) && forall i :: 0 <= i < |keys| ==> less(keys[i], target)
      ensures forall x :: 0 <= x < |Joined(blocks)| ==> less(Joined(blocks)[x].key, target)
    {
      forall x | 0 <= x < |Joined(blocks)| ensures less(Joined(blocks)[x].key, target) {
        var b, i := FlatOrigin(blocks, x);
        KeyBefore(blocks[b][i].key, keys[b], target);
      }
    }

    lemma KeyBefore(key: Bytes, sep: Bytes, target: Bytes)
      requires Strict(less) && !less(sep, key) && less(sep, target)
      ensures less(key, target)
    {
    }

    lemma SeekPlace(j: nat, pos: nat, target: Bytes)
      requires Strict(less) && Leads(keys, blocks, less) && j < |blocks| && pos <= |blocks[j]|
      requires (forall i :: 0 <= i < j ==> less(keys[i], target)) && !less(keys[j], target)
      requires (forall i :: 0 <= i < pos ==> less(blocks[j][i].key, target))
      requires (pos < |blocks[j]| ==> !less(blocks[j][pos].key, target))
      ensures Place(blocks, j, pos) <= |Joined(blocks)|
      ensures forall x :: 0 <= x < Place(blocks, j, pos) ==> less(Joined(blocks)[x].key, target)
      ensures Place(blocks, j, pos) < |Joined(blocks)| ==> !less(Joined(blocks)[Place(blocks, j, pos)].key, target)
    {
      var due := Place(blocks, j, pos);
      Within(blocks, j, pos);
      forall x | 0 <= x < due ensures less(Joined(blocks)[x].key, target) {
        var b, i := FlatOrigin(blocks, x);
        if b < j {
          KeyBefore(blocks[b][i].key, keys[b], target);
        } else {
          if b > j { Earlier(blocks, j, b); }
          assert b == j;
        }
      }
      if due < |Joined(blocks)| {
        var b, i := FlatOrigin(blocks, due);
        if b < j { Earlier(blocks, b, j); }
        assert b == j ==> i == pos;
        assert b > j ==> less(keys[j], blocks[b][i].key);
      }
    }
  }

  lemma {:induction false} Earlier(blocks: seq<seq<Pair>>, b: nat, c: nat)
    requires b < c <= |blocks|
    ensures Place(blocks, b, |blocks[b]|) <= Place(blocks, c, 0)
    decreases c
  {
    NextBlock(blocks, c - 1);
    if b < c - 1 { Earlier(blocks, b, c - 1); }
  }

  lemma Within(blocks: seq<seq<Pair>>, b: nat, i: nat)
    requires b < |blocks| && i <= |blocks[b]|
    ensures Place(blocks, b, i) <= |Joined(blocks)|
  {
    Earlier(blocks, b, |blocks|);
    Ends(blocks);
  }
}
