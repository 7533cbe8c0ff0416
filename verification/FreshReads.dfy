/** Reads that must not miss this client's own writes, answered by replicas that may lag. */
module FreshReads {
  import opened Outcomes

  datatype Block = Latest | Number(number: nat)

  /** What one read gives: a value, or an error and whether `final` accepts it. */
  datatype Reading<+T> = Got(value: T) | Failed(final: bool)

  const READ_RETRIES: nat := 3

  function Max(a: nat, b: nat): nat {
    if a >= b then a else b
  }

  /** `_fresh_block`, given the newest block the node names, if it names one. */
  function FreshBlock(lastWrite: nat, newest: Option<nat>): (block: Block) {
    if lastWrite == 0 then Latest
    else Number(Max(lastWrite, if newest.Some? then newest.value else 0))
  }

  /** A block that holds every write up to `lastWrite`. */
  predicate Covers(block: Block, lastWrite: nat) {
    lastWrite == 0 || (block.Number? && block.number >= lastWrite)
  }

  lemma FreshBlockCovers(lastWrite: nat, newest: Option<nat>)
    ensures Covers(FreshBlock(lastWrite, newest), lastWrite)
    ensures FreshBlock(lastWrite, newest) == Latest <==> lastWrite == 0
    ensures lastWrite > 0 ==>
              var n := FreshBlock(lastWrite, newest).number;
              && n >= lastWrite && (newest.Some? ==> n >= newest.value)
              && (n == lastWrite || newest == Some(n))
  {
  }

  /** `_read_at_block`. `read(k, at)` is what the network answers to the k-th read, at
      block `at`; any answers at all, so any lag. `asked` are the blocks read, in order. */
  method ReadAtBlock<T>(block: Block, read: (nat, Block) -> Reading<T>) returns (r: Reading<T>, asked: seq<Block>)
    ensures 0 < |asked| && r == read(|asked| - 1, asked[|asked| - 1])
    // Every read but the last failed, with an error that `final` does not accept.
    ensures forall k :: 0 <= k < |asked| - 1 ==> read(k, asked[k]) == Failed(false)
    ensures block == Latest ==> asked == [Latest]
    // At most three reads at the block, then at most one at "latest".
    ensures block != Latest ==> |asked| <= READ_RETRIES + 1
    ensures block != Latest ==> forall k :: 0 <= k < |asked| ==> asked[k] == if k < READ_RETRIES then block else Latest
    // It never gives up early: an error it returns is final, or comes from "latest".
    ensures r == Failed(false) ==> asked[|asked| - 1] == Latest
  {
    if block == Latest {
      return read(0, Latest), [Latest];
    }
    asked := [];
    var attempt := 0;
    while attempt < READ_RETRIES - 1
      invariant 0 <= attempt <= READ_RETRIES - 1 && |asked| == attempt
      invariant forall k :: 0 <= k < attempt ==> asked[k] == block && read(k, asked[k]) == Failed(false)
    {
      r := read(attempt, block);
      asked := asked + [block];
      if r.Got? || r.final {
        return;
      }
      attempt := attempt + 1;
    }
    r := read(READ_RETRIES - 1, block);
    asked := asked + [block];
    if r.Failed? && !r.final {
      r := read(READ_RETRIES, Latest);
      asked := asked + [Latest];
    }
  }

  /** Read-your-writes, over the contract of `ReadAtBlock`: a value that does not come
      from a block holding the last write was read after three reads there failed. */
  lemma StaleOnlyAfterThreeFailures<T>(lastWrite: nat, newest: Option<nat>, read: (nat, Block) -> Reading<T>,
                                       asked: seq<Block>)
    requires 0 < |asked|
    requires forall k :: 0 <= k < |asked| - 1 ==> read(k, asked[k]) == Failed(false)
    requires FreshBlock(lastWrite, newest) == Latest ==> asked == [Latest]
    requires FreshBlock(lastWrite, newest) != Latest ==>
               forall k :: 0 <= k < |asked| ==>
                 asked[k] == if k < READ_RETRIES then FreshBlock(lastWrite, newest) else Latest
    ensures !Covers(asked[|asked| - 1], lastWrite) ==>
              && |asked| > 3
              && forall k :: 0 <= k < 3 ==> Covers(asked[k], lastWrite) && read(k, asked[k]) == Failed(false)
  {
    FreshBlockCovers(lastWrite, newest);
    if !Covers(asked[|asked| - 1], lastWrite) {
      assert asked[|asked| - 1] == Latest;
    }
  }
}
