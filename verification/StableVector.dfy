/** A vector of fixed-size blocks that only grows at its end. */
module Blocks {
  import opened Arithmetic

  /** The elements of the blocks, in order. */
  function Flatten<T>(blocks: seq<seq<T>>): seq<T> {
    if blocks == [] then [] else blocks[0] + Flatten(blocks[1..])
  }

  /** Every block but the last is full, and the last holds no more than a block may. */
  ghost predicate Packed<T>(blockSize: nat, blocks: seq<seq<T>>) {
    && blockSize > 0
    && (forall b | 0 <= b < |blocks| - 1 :: |blocks[b]| == blockSize)
    && (blocks != [] ==> |blocks[|blocks| - 1]| <= blockSize)
  }

  /** An element's block and offset follow from its index alone. */
  lemma {:induction false} FlattenAt<T>(blockSize: nat, blocks: seq<seq<T>>, i: nat)
    requires Packed(blockSize, blocks) && i < |Flatten(blocks)|
    ensures i / blockSize < |blocks| && i % blockSize < |blocks[i / blockSize]|
    ensures Flatten(blocks)[i] == blocks[i / blockSize][i % blockSize]
  {
    var rest := blocks[1..];
    if i < |blocks[0]| {
      DivisionIsUnique(i, blockSize, 0, i);
    } else {
      assert rest != [] && |blocks[0]| == blockSize;
      assert rest[|rest| - 1] == blocks[|blocks| - 1];
      StepDown(i, blockSize);
      FlattenAt(blockSize, rest, i - blockSize);
    }
  }

  lemma {:induction false} FlattenSize<T>(blockSize: nat, blocks: seq<seq<T>>)
    requires Packed(blockSize, blocks) && blocks != []
    ensures |Flatten(blocks)| == (|blocks| - 1) * blockSize + |blocks[|blocks| - 1]|
  {
    if |blocks| == 1 {
      assert Flatten(blocks[1..]) == [];
    } else {
      var rest := blocks[1..];
      assert rest[|rest| - 1] == blocks[|blocks| - 1];
      FlattenSize(blockSize, rest);
      OneMultipleMore(|rest| - 1, blockSize);
    }
  }

  lemma {:induction false} InSecond<T>(first: seq<T>, second: seq<T>, k: nat)
    requires k < |second|
    ensures (first + second)[|first| + k] == second[k]
  {
  }

  /** The element at an offset of a block, found in the flat order. */
  lemma {:induction false} FlattenIn<T>(blockSize: nat, blocks: seq<seq<T>>, b: nat, j: nat)
    requires Packed(blockSize, blocks) && b < |blocks| && j < |blocks[b]|
    ensures b * blockSize + j < |Flatten(blocks)| && Flatten(blocks)[b * blockSize + j] == blocks[b][j]
  {
    if b == 0 {
      assert b * blockSize + j == j;
    } else {
      var rest, k := blocks[1..], (b - 1) * blockSize + j;
      assert rest[|rest| - 1] == blocks[|blocks| - 1];
      FlattenIn(blockSize, rest, b - 1, j);
      assert b * blockSize + j == |blocks[0]| + k by {
        OneMultipleMore(b - 1, blockSize);
      }
      InSecond(blocks[0], Flatten(rest), k);
    }
  }

  /** The blocks with one more element in the last of them. */
  function Stored<T>(blocks: seq<seq<T>>, t: T): seq<seq<T>>
    requires blocks != []
  {
    blocks[|blocks| - 1 := blocks[|blocks| - 1] + [t]]
  }

  lemma {:induction false} FlattenStored<T>(blocks: seq<seq<T>>, t: T)
    requires blocks != []
    ensures Flatten(Stored(blocks, t)) == Flatten(blocks) + [t]
  {
    if |blocks| == 1 {
      assert Flatten(blocks[1..]) == [] && Flatten(Stored(blocks, t)[1..]) == [];
    } else {
      assert Stored(blocks, t)[1..] == Stored(blocks[1..], t);
      FlattenStored(blocks[1..], t);
    }
  }

  lemma {:induction false} FlattenGrown<T>(blocks: seq<seq<T>>)
    ensures Flatten(blocks + [[]]) == Flatten(blocks)
  {
    if blocks != [] {
      assert (blocks + [[]])[1..] == blocks[1..] + [[]];
      FlattenGrown(blocks[1..]);
    }
  }

  lemma {:induction false} OneMoreVisited<T>(visited: seq<T>, block: seq<T>, j: nat, tail: seq<T>)
    requires j < |block|
    ensures visited + (block[j..] + tail) == visited + [block[j]] + (block[j + 1..] + tail)
  {
  }

  lemma {:induction false} BlockVisited<T>(block: seq<T>, tail: seq<T>)
    ensures block[0..] + tail == block + tail && block[|block|..] + tail == tail
  {
  }
}

/** The vector as its one writer uses it. */
module StableVector {
  import opened Arithmetic
  import opened Blocks

  class AppendOnlyStableVector<T> {
    const blockSize: nat
    var blocks: seq<seq<T>>
    var size: nat
    var capacity: nat
    var blockCount: nat

    ghost predicate Valid()
      reads this
    {
      && Packed(blockSize, blocks)
      && size == |Flatten(blocks)| && capacity == |blocks| * blockSize && blockCount == |blocks|
      && (blocks != [] ==> blocks[|blocks| - 1] != [])
    }

    ghost function Contents(): seq<T>
      reads this
    {
      Flatten(blocks)
    }

    constructor (blockSize: nat)
      requires blockSize > 0
      ensures Valid() && Contents() == [] && this.blockSize == blockSize
    {
      this.blockSize := blockSize;
      blocks, size, capacity, blockCount := [], 0, 0, 0;
    }

    /** Appends behind the last element; no stored element moves to another block or offset. */
    method Append(t: T)
      requires Valid()
      modifies this
      ensures Valid() && Contents() == old(Contents()) + [t]
      ensures |old(blocks)| <= |blocks| && forall b | 0 <= b < |old(blocks)| :: old(blocks)[b] <= blocks[b]
    {
      MaybeGrow();
      FlattenStored(blocks, t);
      blocks := Stored(blocks, t);
      size := size + 1;
    }

    method MaybeGrow()
      requires Valid()
      modifies this
      ensures Packed(blockSize, blocks) && blocks != [] && |blocks[|blocks| - 1]| < blockSize
      ensures Contents() == old(Contents()) && size == old(size)
      ensures capacity == |blocks| * blockSize && blockCount == |blocks|
      ensures |old(blocks)| <= |blocks| && forall b | 0 <= b < |old(blocks)| :: old(blocks)[b] == blocks[b]
    {
      if blocks != [] {
        FlattenSize(blockSize, blocks);
        LastBlockHasRoomIff(blockSize, |blocks|, |blocks[|blocks| - 1]|);
      }
      if size == capacity {
        FlattenGrown(blocks);
        OneMultipleMore(|blocks|, blockSize);
        blocks := blocks + [[]];
        capacity := capacity + blockSize;
        blockCount := blockCount + 1;
      }
    }

    method At(i: nat) returns (t: T)
      requires Valid() && i < size
      ensures t == Contents()[i]
    {
      var blockIndex, localIndex := i / blockSize, i % blockSize;
      assert blockIndex < |blocks| && localIndex < |blocks[blockIndex]| &&
             blocks[blockIndex][localIndex] == Contents()[i] by {
        FlattenAt(blockSize, blocks, i);
      }
      t := blocks[blockIndex][localIndex];
    }

    method Last() returns (t: T)
      requires Valid() && size > 0
      ensures t == Contents()[size - 1]
    {
      FlattenSize(blockSize, blocks);
      FlattenIn(blockSize, blocks, |blocks| - 1, |blocks[|blocks| - 1]| - 1);
      t := blocks[|blocks| - 1][|blocks[|blocks| - 1]| - 1];
    }

    /** Hands the elements to a visitor that may stop the visit; the result lists those it was given. */
    method VisitWhileTrue(f: T -> bool) returns (visited: seq<T>)
      requires Valid()
      ensures visited <= Contents()
      ensures forall k | 0 <= k < |visited| - 1 :: f(visited[k])
      ensures visited == Contents() || (visited != [] && !f(visited[|visited| - 1]))
    {
      visited := [];
      var count := size;
      assert blocks[0..] == blocks && [] + Flatten(blocks) == Flatten(blocks);
      for b := 0 to |blocks|
        invariant visited + Flatten(blocks[b..]) == Contents() && count == size - |visited|
        invariant forall k | 0 <= k < |visited| :: f(visited[k])
      {
        var block := blocks[b];
        ghost var tail := Flatten(blocks[b + 1..]);
        assert blocks[b..][0] == block && blocks[b..][1..] == blocks[b + 1..];
        BlockVisited(block, tail);
        for j := 0 to |block|
          invariant visited + (block[j..] + tail) == Contents() && count == size - |visited|
          invariant forall k | 0 <= k < |visited| :: f(visited[k])
        {
          OneMoreVisited(visited, block, j, tail);
          if count == 0 {
            return;
          }
          visited := visited + [block[j]];
          if !f(block[j]) {
            return;
          }
          count := count - 1;
        }
      }
    }

    /** Hands every element to a visitor; the result lists those it was given. */
    method Visit() returns (visited: seq<T>)
      requires Valid()
      ensures visited == Contents()
    {
      visited := [];
      var count := size;
      assert blocks[0..] == blocks && [] + Flatten(blocks) == Flatten(blocks);
      for b := 0 to |blocks|
        invariant visited + Flatten(blocks[b..]) == Contents() && count == size - |visited|
      {
        var block := blocks[b];
        ghost var tail := Flatten(blocks[b + 1..]);
        assert blocks[b..][0] == block && blocks[b..][1..] == blocks[b + 1..];
        BlockVisited(block, tail);
        for j := 0 to |block|
          invariant visited + (block[j..] + tail) == Contents() && count == size - |visited|
        {
          OneMoreVisited(visited, block, j, tail);
          assert |Contents()| == |visited| + |block[j..] + tail|;
          if count == 0 {
            return;
          }
          visited := visited + [block[j]];
          count := count - 1;
        }
      }
    }
  }

  lemma {:induction false} LastBlockHasRoomIff(blockSize: nat, blocks: nat, last: nat)
    requires blocks > 0 && last <= blockSize
    ensures (blocks - 1) * blockSize + last == blocks * blockSize <==> last == blockSize
  {
    OneMultipleMore(blocks - 1, blockSize);
  }
}

/** One writer appending while any number of readers visit, one small step at a time. */
module StableVectorReaders {
  import opened Arithmetic
  import opened Blocks

  /** Where the writer stands in an append: it makes room, stores the element, publishes the size. */
  datatype Writer = Ready | Roomy | Unpublished

  /** A reader between two blocks, or inside one whose end it has taken on entry. */
  datatype Place = Between | Inside(index: nat, end: nat)

  /** `n` is the size the reader found when it began, `left` what it still counts down. */
  datatype Reader<T> =
    | Outside
    | Visiting(n: nat, left: nat, block: nat, place: Place, visited: seq<T>)
    | Through(n: nat, visited: seq<T>, stopped: bool)

  /** `history` records every element ever stored; no step's guard looks at it. */
  datatype State<T> = State(
    blocks: seq<seq<T>>,
    size: nat,
    capacity: nat,
    writer: Writer,
    readers: seq<Reader<T>>,
    history: seq<T>)

  datatype Step<T> =
    | Grow | Store(t: T) | Publish
    | Snapshot(reader: nat) | EnterBlock(reader: nat) | VisitNext(reader: nat, goOn: bool)
    | LeaveBlock(reader: nat) | Finish(reader: nat)

  predicate VisitingNow<T>(s: State<T>, r: nat) {
    r < |s.readers| && s.readers[r].Visiting?
  }

  predicate Enabled<T>(s: State<T>, step: Step<T>) {
    match step
    case Grow => s.writer.Ready? && s.size == s.capacity
    case Store(_) => (s.writer.Roomy? || (s.writer.Ready? && s.size != s.capacity)) && s.blocks != []
    case Publish => s.writer.Unpublished?
    case Snapshot(r) => r < |s.readers| && s.readers[r].Outside?
    case EnterBlock(r) => VisitingNow(s, r) && s.readers[r].place.Between? && s.readers[r].block < |s.blocks|
    case VisitNext(r, _) =>
      && VisitingNow(s, r) && s.readers[r].place.Inside? && s.readers[r].place.index < s.readers[r].place.end
      && s.readers[r].left > 0 && s.readers[r].block < |s.blocks|
      && s.readers[r].place.index < |s.blocks[s.readers[r].block]|
    case LeaveBlock(r) =>
      && VisitingNow(s, r) && s.readers[r].place.Inside?
      && s.readers[r].place.index == s.readers[r].place.end
    case Finish(r) =>
      && VisitingNow(s, r)
      && if s.readers[r].place.Between? then s.readers[r].block >= |s.blocks|
         else s.readers[r].place.index < s.readers[r].place.end && s.readers[r].left == 0
  }

  function Apply<T>(blockSize: nat, s: State<T>, step: Step<T>): State<T>
    requires Enabled(s, step)
  {
    match step
    case Grow => s.(blocks := s.blocks + [[]], capacity := s.capacity + blockSize, writer := Roomy)
    case Store(t) => s.(blocks := Stored(s.blocks, t), writer := Unpublished, history := s.history + [t])
    case Publish => s.(size := s.size + 1, writer := Ready)
    case Snapshot(r) => s.(readers := s.readers[r := Visiting(s.size, s.size, 0, Between, [])])
    case EnterBlock(r) =>
      s.(readers := s.readers[r := s.readers[r].(place := Inside(0, |s.blocks[s.readers[r].block]|))])
    case VisitNext(r, goOn) =>
      var reader := s.readers[r];
      var visited := reader.visited + [s.blocks[reader.block][reader.place.index]];
      s.(readers := s.readers[r :=
        if goOn then
          var place := Inside(reader.place.index + 1, reader.place.end);
          reader.(place := place, left := reader.left - 1, visited := visited)
        else Through(reader.n, visited, true)])
    case LeaveBlock(r) =>
      s.(readers := s.readers[r := s.readers[r].(block := s.readers[r].block + 1, place := Between)])
    case Finish(r) => s.(readers := s.readers[r := Through(s.readers[r].n, s.readers[r].visited, false)])
  }

  /** A visitor that always goes on never stops the visit. */
  ghost predicate Run<T>(blockSize: nat, s: State<T>, steps: seq<Step<T>>, after: State<T>)
    decreases |steps|
  {
    if steps == [] then after == s
    else Enabled(s, steps[0]) && Run(blockSize, Apply(blockSize, s, steps[0]), steps[1..], after)
  }

  ghost predicate Initial<T>(s: State<T>) {
    s.blocks == [] && s.size == 0 && s.capacity == 0 && s.writer == Ready && s.history == []
    && forall r | 0 <= r < |s.readers| :: s.readers[r].Outside?
  }

  // ---------- what every step keeps ----------

  ghost predicate WriterKept<T>(blockSize: nat, s: State<T>) {
    && Packed(blockSize, s.blocks) && s.history == Flatten(s.blocks)
    && s.capacity == |s.blocks| * blockSize
    && |s.history| == (if s.writer.Unpublished? then s.size + 1 else s.size)
    && |s.history| <= s.capacity
    && (s.writer.Roomy? ==> s.size < s.capacity)
    && (s.blocks != [] ==> (|s.blocks| - 1) * blockSize <= s.size)
  }

  /** What a reader has visited are the first elements ever stored, and its place is right behind them. */
  ghost predicate ReaderKept<T>(blockSize: nat, s: State<T>, reader: Reader<T>) {
    match reader
    case Outside => true
    case Visiting(n, left, block, place, visited) =>
      && n <= s.size && |visited| + left == n && visited <= s.history
      && (place.Between? ==> left > 0 ==> |visited| == block * blockSize)
      && (place.Inside? ==>
            && block < |s.blocks| && place.index <= place.end <= |s.blocks[block]|
            && (left > 0 ==> |visited| == block * blockSize + place.index)
            && (place.end == blockSize || n <= block * blockSize + place.end))
    case Through(n, visited, stopped) =>
      n <= s.size && visited <= s.history && (if stopped then |visited| <= n else |visited| == n)
  }

  ghost predicate Kept<T>(blockSize: nat, s: State<T>) {
    WriterKept(blockSize, s) && forall r | 0 <= r < |s.readers| :: ReaderKept(blockSize, s, s.readers[r])
  }

  lemma {:induction false} WriterStepKeepsWriter<T>(blockSize: nat, s: State<T>, step: Step<T>)
    requires WriterKept(blockSize, s) && Enabled(s, step)
    ensures WriterKept(blockSize, Apply(blockSize, s, step))
  {
    match step
    case Grow =>
      FlattenGrown(s.blocks);
      OneMultipleMore(|s.blocks|, blockSize);
      if s.blocks != [] {
        FlattenSize(blockSize, s.blocks);
        OneMultipleMore(|s.blocks| - 1, blockSize);
      }
    case Store(t) =>
      FlattenSize(blockSize, s.blocks);
      OneMultipleMore(|s.blocks| - 1, blockSize);
      FlattenStored(s.blocks, t);
    case _ =>
  }

  /** Blocks only grow at their ends, and the history only at its own: no stored element ever moves. */
  ghost predicate Grown<T>(s: State<T>, after: State<T>) {
    && s.size <= after.size && s.history <= after.history && |s.blocks| <= |after.blocks|
    && forall b | 0 <= b < |s.blocks| :: s.blocks[b] <= after.blocks[b]
  }

  lemma {:induction false} StepGrows<T>(blockSize: nat, s: State<T>, step: Step<T>)
    requires Enabled(s, step)
    ensures Grown(s, Apply(blockSize, s, step))
  {
  }

  lemma {:induction false} GrowthKeepsReader<T>(blockSize: nat, s: State<T>, after: State<T>, reader: Reader<T>)
    requires ReaderKept(blockSize, s, reader) && Grown(s, after)
    ensures ReaderKept(blockSize, after, reader)
  {
  }

  lemma {:induction false} EnteringKeepsReader<T>(blockSize: nat, s: State<T>, r: nat)
    requires Kept(blockSize, s) && Enabled(s, EnterBlock(r))
    ensures ReaderKept(blockSize, s, Apply(blockSize, s, EnterBlock(r)).readers[r])
  {
    assert ReaderKept(blockSize, s, s.readers[r]);
    FlattenSize(blockSize, s.blocks);
  }

  lemma {:induction false} VisitingKeepsReader<T>(blockSize: nat, s: State<T>, r: nat, goOn: bool)
    requires Kept(blockSize, s) && Enabled(s, VisitNext(r, goOn))
    ensures ReaderKept(blockSize, s, Apply(blockSize, s, VisitNext(r, goOn)).readers[r])
  {
    var reader := s.readers[r];
    assert ReaderKept(blockSize, s, reader);
    FlattenIn(blockSize, s.blocks, reader.block, reader.place.index);
  }

  lemma {:induction false} LeavingKeepsReader<T>(blockSize: nat, s: State<T>, r: nat)
    requires Kept(blockSize, s) && Enabled(s, LeaveBlock(r))
    ensures ReaderKept(blockSize, s, Apply(blockSize, s, LeaveBlock(r)).readers[r])
  {
    assert ReaderKept(blockSize, s, s.readers[r]);
    OneMultipleMore(s.readers[r].block, blockSize);
  }

  lemma {:induction false} FinishingKeepsReader<T>(blockSize: nat, s: State<T>, r: nat)
    requires Kept(blockSize, s) && Enabled(s, Finish(r))
    ensures ReaderKept(blockSize, s, Apply(blockSize, s, Finish(r)).readers[r])
  {
    var reader := s.readers[r];
    assert ReaderKept(blockSize, s, reader);
    if reader.place.Between? && reader.left > 0 {
      MultiplesGrow(|s.blocks|, reader.block, blockSize);
    }
  }

  lemma {:induction false} ReaderStepKeepsReader<T>(blockSize: nat, s: State<T>, step: Step<T>, r: nat)
    requires Kept(blockSize, s) && Enabled(s, step) && r < |s.readers|
    requires step == EnterBlock(r) || (step.VisitNext? && step.reader == r) || step == LeaveBlock(r) ||
             step == Finish(r)
    ensures ReaderKept(blockSize, s, Apply(blockSize, s, step).readers[r])
  {
    match step
    case EnterBlock(_) => EnteringKeepsReader(blockSize, s, r);
    case VisitNext(_, goOn) => VisitingKeepsReader(blockSize, s, r, goOn);
    case LeaveBlock(_) => LeavingKeepsReader(blockSize, s, r);
    case Finish(_) => FinishingKeepsReader(blockSize, s, r);
  }

  /** A reader is never stuck: until it is through, one of its steps can be taken. */
  lemma {:induction false} ReaderCanMove<T>(blockSize: nat, s: State<T>, r: nat)
    requires Kept(blockSize, s) && VisitingNow(s, r)
    ensures Enabled(s, EnterBlock(r)) || Enabled(s, VisitNext(r, true)) || Enabled(s, LeaveBlock(r)) ||
            Enabled(s, Finish(r))
  {
    assert ReaderKept(blockSize, s, s.readers[r]);
  }

  lemma {:induction false} StepKeeps<T>(blockSize: nat, s: State<T>, step: Step<T>)
    requires Kept(blockSize, s) && Enabled(s, step)
    ensures Kept(blockSize, Apply(blockSize, s, step))
  {
    var after := Apply(blockSize, s, step);
    WriterStepKeepsWriter(blockSize, s, step);
    StepGrows(blockSize, s, step);
    forall r | 0 <= r < |after.readers| ensures ReaderKept(blockSize, after, after.readers[r]) {
      if after.readers[r] == s.readers[r] {
        GrowthKeepsReader(blockSize, s, after, s.readers[r]);
      } else if !step.Snapshot? {
        ReaderStepKeepsReader(blockSize, s, step, r);
        GrowthKeepsReader(blockSize, s, after, after.readers[r]);
      }
    }
  }

  lemma {:induction false} RunsKeep<T>(blockSize: nat, s: State<T>, steps: seq<Step<T>>, after: State<T>)
    requires Kept(blockSize, s) && Run(blockSize, s, steps, after)
    ensures Kept(blockSize, after)
    decreases |steps|
  {
    if steps != [] {
      StepKeeps(blockSize, s, steps[0]);
      RunsKeep(blockSize, Apply(blockSize, s, steps[0]), steps[1..], after);
    }
  }

  // ---------- what readers see ----------

  /**
    Under every interleaving, a reader that found size n and whose visitor never stopped it has been
    given exactly the first n elements ever appended, in order; a stopped one a prefix of them.
   */
  lemma {:induction false} ReadersVisitTheFirstElements<T>(
      blockSize: nat, init: State<T>, steps: seq<Step<T>>, s: State<T>, r: nat)
    requires blockSize > 0 && Initial(init) && Run(blockSize, init, steps, s)
    requires r < |s.readers| && s.readers[r].Through?
    ensures s.readers[r].n <= |s.history|
    ensures if s.readers[r].stopped then s.readers[r].visited <= s.history[..s.readers[r].n]
            else s.readers[r].visited == s.history[..s.readers[r].n]
  {
    RunsKeep(blockSize, init, steps, s);
    assert ReaderKept(blockSize, s, s.readers[r]);
  }

  /** Growing composes over a run: what is stored keeps its block, its offset and its value for good. */
  lemma {:induction false} ElementsNeverMove<T>(blockSize: nat, s: State<T>, steps: seq<Step<T>>, after: State<T>)
    requires Run(blockSize, s, steps, after)
    ensures Grown(s, after)
    decreases |steps|
  {
    if steps != [] {
      var next := Apply(blockSize, s, steps[0]);
      StepGrows(blockSize, s, steps[0]);
      ElementsNeverMove(blockSize, next, steps[1..], after);
      forall b | 0 <= b < |s.blocks| ensures s.blocks[b] <= after.blocks[b] {
        assert s.blocks[b] <= next.blocks[b] <= after.blocks[b];
      }
    }
  }

  /** An index below a size read earlier finds the element appended there, however much has been appended since. */
  lemma {:induction false} AtFindsTheElement<T>(
      blockSize: nat, init: State<T>, first: seq<Step<T>>, s: State<T>, more: seq<Step<T>>, after: State<T>, i: nat)
    requires blockSize > 0 && Initial(init) && Run(blockSize, init, first, s) && i < s.size &&
             Run(blockSize, s, more, after)
    ensures i < |s.history| && i / blockSize < |after.blocks| && i % blockSize < |after.blocks[i / blockSize]|
    ensures after.blocks[i / blockSize][i % blockSize] == s.history[i]
  {
    RunsKeep(blockSize, init, first, s);
    RunsKeep(blockSize, s, more, after);
    ElementsNeverMove(blockSize, s, more, after);
    FlattenAt(blockSize, after.blocks, i);
  }
}
