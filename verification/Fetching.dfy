/**
  Fetching blocks: internal/fetch/sync/chain (batches fetched from the node), internal/fetch/sync/iterator.go (block
  store first, then the node) and internal/fetch/sync/sync.go (`CatchUp`, `KeepInSync`).

  What the node and the block store answer comes in as parameters and may be anything.
 */
module Fetching {
  import opened Options

  /** A block with the results of its execution, which come from a request of their own. */
  datatype Block = Block(height: int, content: string, results: string)

  /** A freshly made batch holds zero blocks. */
  const ZERO := Block(0, "", "")

  datatype Error = FetchFailed | BatchStillFilled | StoreHeightMismatch | ChainHeightMismatch | NoIterator | NoResultNoError

  /** (block, nil), (nil, nil) or (nil, err). */
  datatype Answer = Got(block: Block) | End | Failed(error: Error)

  // ---------------------------------------------------------------------------------------------
  // One request to the node

  datatype Header = Header(height: int, content: string)

  datatype Results = Results(height: int, content: string)

  /**
    The node's answers to one run of `fetchBlocks`: whether the requests could be queued and sent, the block of each
    request, and the results of each block.
   */
  datatype Reply = Reply(blocksSent: bool, blocks: seq<Option<Header>>, resultsSent: bool, results: seq<Results>)

  predicate IsReplyFor(reply: Reply, n: nat) {
    |reply.blocks| == |reply.results| == n
  }

  predicate GoodHeaders(reply: Reply, height: int) {
    forall i | 0 <= i < |reply.blocks| :: reply.blocks[i].Some? && reply.blocks[i].value.height == height + i
  }

  predicate GoodResults(reply: Reply, height: int) {
    forall i | 0 <= i < |reply.results| :: reply.results[i].height == height + i
  }

  /** The node answered the requests for heights `height`, `height + 1`, ... */
  predicate IsGood(reply: Reply, height: int) {
    reply.blocksSent && reply.resultsSent && GoodHeaders(reply, height) && GoodResults(reply, height)
  }

  predicate Contiguous(blocks: seq<Block>, height: int) {
    forall i | 0 <= i < |blocks| :: blocks[i].height == height + i
  }

  /** Block for block the node's, with the height, the content and the results it sent. */
  predicate Carries(reply: Reply, blocks: seq<Block>) {
    && |blocks| <= |reply.blocks| && |blocks| <= |reply.results|
    && forall i | 0 <= i < |blocks| ::
         && reply.blocks[i].Some?
         && blocks[i] == Block(reply.blocks[i].value.height, reply.blocks[i].value.content, reply.results[i].content)
  }

  predicate HaveHeaders(reply: Reply, blocks: seq<Block>) {
    && |blocks| <= |reply.blocks|
    && forall i | 0 <= i < |blocks| ::
         && reply.blocks[i].Some?
         && blocks[i].height == reply.blocks[i].value.height && blocks[i].content == reply.blocks[i].value.content
  }

  predicate HaveResults(reply: Reply, blocks: seq<Block>) {
    |blocks| <= |reply.results| && forall i | 0 <= i < |blocks| :: blocks[i].results == reply.results[i].content
  }

  /** The first half: the blocks. */
  method FetchHeaders(batch: array<Block>, start: nat, n: nat, height: int, reply: Reply) returns (ok: bool)
    requires start + n <= batch.Length && IsReplyFor(reply, n)
    modifies batch
    ensures ok <==> GoodHeaders(reply, height)
    ensures ok ==> HaveHeaders(reply, batch[start..start + n])
    ensures batch[..start] == old(batch[..start]) && batch[start + n..] == old(batch[start + n..])
  {
    for i := 0 to n
      invariant batch[..start] == old(batch[..start]) && batch[start + n..] == old(batch[start + n..])
      invariant forall j | 0 <= j < i :: reply.blocks[j].Some? && reply.blocks[j].value.height == height + j
      invariant HaveHeaders(reply, batch[start..start + i])
    {
      if reply.blocks[i].None? {
        return false;
      }
      var header := reply.blocks[i].value;
      if header.height != height + i {
        return false;
      }
      batch[start + i] := Block(header.height, header.content, "");
    }
    ok := true;
  }

  /** The second half: the results of each block. */
  method FetchResults(batch: array<Block>, start: nat, n: nat, height: int, reply: Reply) returns (ok: bool)
    requires start + n <= batch.Length && IsReplyFor(reply, n)
    requires GoodHeaders(reply, height) && HaveHeaders(reply, batch[start..start + n])
    modifies batch
    ensures ok <==> GoodResults(reply, height)
    ensures ok ==> HaveHeaders(reply, batch[start..start + n]) && HaveResults(reply, batch[start..start + n])
    ensures batch[..start] == old(batch[..start]) && batch[start + n..] == old(batch[start + n..])
  {
    for i := 0 to n
      invariant batch[..start] == old(batch[..start]) && batch[start + n..] == old(batch[start + n..])
      invariant forall j | 0 <= j < i :: reply.results[j].height == height + j
      invariant HaveHeaders(reply, batch[start..start + n]) && HaveResults(reply, batch[start..start + i])
    {
      assert batch[start..start + n][i] == batch[start + i];
      batch[start + i] := batch[start + i].(results := reply.results[i].content);
      if batch[start + i].height != height + i || reply.results[i].height != height + i {
        return false;
      }
    }
    ok := true;
  }

  /** Fills `batch[start..start + n]`; on an error it may be half filled. */
  method FetchBlocks(batch: array<Block>, start: nat, n: nat, height: int, reply: Reply) returns (ok: bool)
    requires start + n <= batch.Length && IsReplyFor(reply, n)
    modifies batch
    ensures ok <==> IsGood(reply, height)
    ensures ok ==> Contiguous(batch[start..start + n], height) && Carries(reply, batch[start..start + n])
    ensures batch[..start] == old(batch[..start]) && batch[start + n..] == old(batch[start + n..])
  {
    if !reply.blocksSent {
      return false;
    }
    ok := FetchHeaders(batch, start, n, height, reply);
    if !ok || !reply.resultsSent {
      return false;
    }
    ok := FetchResults(batch, start, n, height, reply);
  }

  predicate IsOrder(order: seq<nat>, n: nat) {
    && |order| == n
    && (forall i | 0 <= i < n :: order[i] < n)
    && (forall i: nat | i < n :: i in order)
  }

  /** The stretch of `k` blocks from `start` holds the blocks it should. */
  predicate IsFilled(blocks: seq<Block>, start: nat, k: nat, height: int, reply: Reply) {
    && start + k <= |blocks|
    && Contiguous(blocks[start..start + k], height + start)
    && Carries(reply, blocks[start..start + k])
  }

  /** What the node answers while one batch is fetched: a reply per stretch, and the order in which the parts finish. */
  datatype NodeAnswers = NodeAnswers(reply: (int, nat) -> Reply, order: nat -> seq<nat>)

  ghost predicate IsNode(a: NodeAnswers) {
    && (forall height, n :: IsReplyFor(a.reply(height, n), n))
    && (forall n :: IsOrder(a.order(n), n))
  }

  function PartStart(i: nat, k: nat): nat { i * k }

  /** Each part got its blocks. */
  predicate AllGood(a: NodeAnswers, parts: nat, k: nat, height: int) {
    forall i | 0 <= i < parts :: PartIsGood(a, i, k, height)
  }

  /** What a fetch of `n` blocks in `parallelism` parts needs from the node. */
  predicate Fetches(a: NodeAnswers, n: nat, parallelism: nat, height: int)
    requires parallelism > 0
  {
    if n == 1 || parallelism == 1 then IsGood(a.reply(height, n), height)
    else n / parallelism * parallelism == n && AllGood(a, parallelism, n / parallelism, height)
  }

  function PartReply(a: NodeAnswers, i: nat, k: nat, height: int): Reply {
    a.reply(height + PartStart(i, k), k)
  }

  /** Part `i` of the batch holds the blocks of the node's reply to that part. */
  predicate PartIsFilled(a: NodeAnswers, blocks: seq<Block>, i: nat, k: nat, height: int) {
    IsFilled(blocks, PartStart(i, k), k, height, PartReply(a, i, k, height))
  }

  /** The node gave this block, with this content and these results, for the height. */
  ghost predicate IsNodeBlock(a: NodeAnswers, b: Block) {
    exists height, n :: IsInReply(a.reply(height, n), height, b)
  }

  predicate IsInReply(reply: Reply, height: int, b: Block) {
    && IsGood(reply, height)
    && 0 <= b.height - height < |reply.blocks|
    && b.height - height < |reply.results|
    && b.content == reply.blocks[b.height - height].value.content
    && b.results == reply.results[b.height - height].content
  }

  ghost predicate AreNodeBlocks(a: NodeAnswers, blocks: seq<Block>) {
    forall i | 0 <= i < |blocks| :: IsNodeBlock(a, blocks[i])
  }

  lemma CarriedAreNodeBlocks(a: NodeAnswers, height: int, n: nat, blocks: seq<Block>)
    requires IsGood(a.reply(height, n), height) && Contiguous(blocks, height) && Carries(a.reply(height, n), blocks)
    ensures AreNodeBlocks(a, blocks)
  {
    forall i | 0 <= i < |blocks|
      ensures IsNodeBlock(a, blocks[i])
    {
      assert IsInReply(a.reply(height, n), height, blocks[i]);
    }
  }

  /**
    The parts run in some order, each on its own stretch of the batch; the error of any of them is an error of the
    whole. A single block is fetched without a batch request, which checks the same heights.
   */
  method FetchBlocksParallel(batch: array<Block>, height: int, parallelism: nat, a: NodeAnswers) returns (ok: bool)
    requires batch.Length > 0 && parallelism > 0 && IsNode(a)
    modifies batch
    ensures ok <==> Fetches(a, batch.Length, parallelism, height)
    ensures ok ==> Contiguous(batch[..], height) && AreNodeBlocks(a, batch[..])
    ensures ok && (batch.Length == 1 || parallelism == 1) ==> Carries(a.reply(height, batch.Length), batch[..])
    ensures ok && batch.Length != 1 && parallelism != 1 ==>
              forall i: nat | i < parallelism :: PartIsFilled(a, batch[..], i, batch.Length / parallelism, height)
  {
    var n := batch.Length;
    if n == 1 || parallelism == 1 {
      ok := FetchBlocks(batch, 0, n, height, a.reply(height, n));
      assert batch[0..n] == batch[..];
      if ok {
        CarriedAreNodeBlocks(a, height, n, batch[..]);
      }
      return;
    }
    var k := n / parallelism;
    if k * parallelism != n {
      return false;
    }
    ok := FetchParts(batch, height, parallelism, k, a);
  }

  method FetchParts(batch: array<Block>, height: int, parallelism: nat, k: nat, a: NodeAnswers) returns (ok: bool)
    requires parallelism > 0 && k * parallelism == batch.Length > 0 && IsNode(a)
    modifies batch
    ensures ok <==> AllGood(a, parallelism, k, height)
    ensures ok ==> Contiguous(batch[..], height) && AreNodeBlocks(a, batch[..])
    ensures ok ==> forall i: nat | i < parallelism :: PartIsFilled(a, batch[..], i, k, height)
  {
    ok := true;
    var order := a.order(parallelism);
    for d := 0 to parallelism
      invariant ok <==> forall j | 0 <= j < d :: PartIsGood(a, order[j], k, height)
      invariant ok ==> forall j | 0 <= j < d :: PartIsFilled(a, batch[..], order[j], k, height)
    {
      var i := order[d];
      PartsAreApart(i, i, k, parallelism);
      ghost var before := batch[..];
      var start := PartStart(i, k);
      var fetched := FetchBlocks(batch, start, k, height + start, a.reply(height + start, k));
      if ok && fetched {
        KeepParts(a, before, batch[..], order, d, i, k, parallelism, height);
      }
      ok := ok && fetched;
    }
    EachPart(a, order, parallelism, k, height);
    if ok {
      PartsCover(a, batch[..], order, parallelism, k, height);
    }
  }

  predicate PartIsGood(a: NodeAnswers, i: nat, k: nat, height: int) {
    IsGood(a.reply(height + PartStart(i, k), k), height + PartStart(i, k))
  }

  lemma PartsAreApart(i: nat, j: nat, k: nat, parallelism: nat)
    requires i < parallelism && j < parallelism
    ensures PartStart(i, k) + k <= k * parallelism
    ensures i < j ==> PartStart(i, k) + k <= PartStart(j, k)
    ensures j < i ==> PartStart(j, k) + k <= PartStart(i, k)
  {
    OneMore(i, k);
    OneMore(j, k);
    LessTimes(i + 1, parallelism, k);
    if i < j {
      LessTimes(i + 1, j, k);
    }
    if j < i {
      LessTimes(j + 1, i, k);
    }
  }

  /** A stretch keeps its blocks while another one is filled. */
  lemma StaysFilled(before: seq<Block>, after: seq<Block>, filled: nat, start: nat, k: nat, height: int, reply: Reply)
    requires |before| == |after| && filled + k <= |before| && IsFilled(before, start, k, height, reply)
    requires after[..filled] == before[..filled] && after[filled + k..] == before[filled + k..]
    requires filled + k <= start || start + k <= filled
    ensures IsFilled(after, start, k, height, reply)
  {
    assert after[start..start + k] == before[start..start + k] by {
      if start + k <= filled {
        assert forall s: seq<Block> | |s| == |before| :: s[start..start + k] == s[..filled][start..start + k];
      } else {
        assert forall s: seq<Block> | |s| == |before| ::
            s[start..start + k] == s[filled + k..][start - (filled + k)..start - filled];
      }
    }
  }

  lemma KeepParts(a: NodeAnswers, before: seq<Block>, after: seq<Block>, order: seq<nat>, d: nat, i: nat, k: nat,
                  parallelism: nat, height: int)
    requires |before| == |after| == k * parallelism && i < parallelism
    requires d <= |order| && forall j | 0 <= j < d :: order[j] < parallelism
    requires forall j | 0 <= j < d :: PartIsFilled(a, before, order[j], k, height)
    requires PartStart(i, k) + k <= |before|
    requires after[..PartStart(i, k)] == before[..PartStart(i, k)]
    requires after[PartStart(i, k) + k..] == before[PartStart(i, k) + k..]
    requires PartIsFilled(a, after, i, k, height)
    ensures forall j | 0 <= j < d :: PartIsFilled(a, after, order[j], k, height)
  {
    forall j | 0 <= j < d
      ensures PartIsFilled(a, after, order[j], k, height)
    {
      PartsAreApart(i, order[j], k, parallelism);
      if order[j] != i {
        StaysFilled(before, after, PartStart(i, k), PartStart(order[j], k), k, height, PartReply(a, order[j], k, height));
      }
    }
  }

  lemma EachPart(a: NodeAnswers, order: seq<nat>, parallelism: nat, k: nat, height: int)
    requires IsOrder(order, parallelism)
    ensures AllGood(a, parallelism, k, height) <==> forall j | 0 <= j < parallelism :: PartIsGood(a, order[j], k, height)
  {
    if forall j | 0 <= j < parallelism :: PartIsGood(a, order[j], k, height) {
      forall i: nat | i < parallelism
        ensures PartIsGood(a, i, k, height)
      {
        assert i in order;
      }
    }
  }

  lemma PartsCover(a: NodeAnswers, blocks: seq<Block>, order: seq<nat>, parallelism: nat, k: nat, height: int)
    requires k > 0 && |blocks| == k * parallelism && IsOrder(order, parallelism) && AllGood(a, parallelism, k, height)
    requires forall j | 0 <= j < parallelism :: PartIsFilled(a, blocks, order[j], k, height)
    ensures Contiguous(blocks, height) && AreNodeBlocks(a, blocks)
    ensures forall i: nat | i < parallelism :: PartIsFilled(a, blocks, i, k, height)
  {
    forall i: nat | i < parallelism
      ensures PartIsFilled(a, blocks, i, k, height)
    {
      assert i in order;
    }
    forall x | 0 <= x < |blocks|
      ensures blocks[x].height == height + x && IsNodeBlock(a, blocks[x])
    {
      PartOfIndex(x, k, parallelism);
      PartHolds(a, blocks, x / k, k, height, x);
    }
  }

  lemma PartHolds(a: NodeAnswers, blocks: seq<Block>, i: nat, k: nat, height: int, x: nat)
    requires PartIsFilled(a, blocks, i, k, height) && PartIsGood(a, i, k, height)
    requires PartStart(i, k) <= x < PartStart(i, k) + k
    ensures blocks[x].height == height + x && IsNodeBlock(a, blocks[x])
  {
    var start := PartStart(i, k);
    CarriedAreNodeBlocks(a, height + start, k, blocks[start..start + k]);
    assert blocks[start..start + k][x - start] == blocks[x];
  }

  lemma PartOfIndex(x: nat, k: nat, parallelism: nat)
    requires k > 0 && x < k * parallelism
    ensures 0 <= x / k < parallelism
    ensures PartStart(x / k, k) <= x < PartStart(x / k, k) + k
  {
    var q := x / k;
    assert x == q * k + x % k;
    Smaller(q, parallelism, k);
  }

  lemma Smaller(q: nat, p: nat, k: nat)
    requires k > 0 && q * k < k * p
    ensures q < p
  {
    if p <= q {
      LessTimes(p, q, k);
    }
  }

  lemma OneMore(i: nat, k: nat)
    ensures (i + 1) * k == i * k + k
  {
  }

  lemma LessTimes(p: nat, q: nat, k: nat)
    requires p <= q
    ensures p * k <= q * k
  {
  }

  // ---------------------------------------------------------------------------------------------
  // chain.Iterator

  class ChainIterator {
    const batchSize: nat
    const parallelism: nat
    const finalBlockHeight: int
    var nextBatchStart: int
    var batch: seq<Block>
    /** What the node answered when the batch was fetched. */
    ghost var from: Option<NodeAnswers>

    /** The iterator is about to return the block of this height. */
    ghost predicate Ready(height: int)
      reads this
    {
      && batchSize > 0 && parallelism > 0
      && Contiguous(batch, height) && nextBatchStart == height + |batch|
      && (batch != [] ==> nextBatchStart <= finalBlockHeight + 1)
      && (batch != [] ==> from.Some? && AreNodeBlocks(from.value, batch))
    }

    /** The block is one the node gave when the batch was fetched. */
    ghost predicate HasGiven(b: Block)
      reads this`from
    {
      from.Some? && IsNodeBlock(from.value, b)
    }

    constructor (startHeight: int, finalBlockHeight: int, batchSize: nat, parallelism: nat)
      requires batchSize > 0 && parallelism > 0
      ensures Ready(startHeight) && this.finalBlockHeight == finalBlockHeight && batch == [] && from == None
      ensures this.batchSize == batchSize && this.parallelism == parallelism
    {
      this.batchSize, this.parallelism, this.finalBlockHeight := batchSize, parallelism, finalBlockHeight;
      nextBatchStart, batch, from := startHeight, [], None;
    }

    method NextBatch(a: NodeAnswers) returns (hasMore: bool, error: Option<Error>)
      requires batchSize > 0 && parallelism > 0 && IsNode(a)
      modifies this
      ensures old(batch) != [] ==> error == Some(BatchStillFilled) && batch == old(batch) && nextBatchStart == old(nextBatchStart)
      ensures old(batch) == [] ==> (hasMore <==> old(nextBatchStart) <= finalBlockHeight)
      ensures !hasMore ==> batch == old(batch) && nextBatchStart == old(nextBatchStart) && (old(batch) == [] ==> error.None?)
      ensures hasMore && error.None? ==> batch != [] && Ready(old(nextBatchStart)) && from == Some(a)
      ensures from == if hasMore then Some(a) else old(from)
      ensures error.Some? ==> error.value in {BatchStillFilled, FetchFailed}
      ensures error == Some(BatchStillFilled) ==> old(batch) != []
    {
      if batch != [] {
        return false, Some(BatchStillFilled);
      }
      if finalBlockHeight < nextBatchStart {
        return false, None;
      }
      var size, parts := batchSize, parallelism;
      var remainingOnChain := finalBlockHeight - nextBatchStart + 1;
      if remainingOnChain < size {
        size, parts := remainingOnChain, 1;
      }
      var blocks := new Block[size](_ => ZERO);
      var ok := FetchBlocksParallel(blocks, nextBatchStart, parts, a);
      batch := blocks[..];
      from := Some(a);
      nextBatchStart := nextBatchStart + size;
      return true, if ok then None else Some(FetchFailed);
    }

    /** In order, without gaps, up to the final height - until a fetch fails, after which the iterator is of no use. */
    method Next(a: NodeAnswers, ghost height: int) returns (r: Answer)
      requires Ready(height) && IsNode(a)
      modifies this
      ensures r.Got? ==> r.block.height == height <= finalBlockHeight && Ready(height + 1) && HasGiven(r.block)
      ensures from == if old(batch) == [] && old(nextBatchStart) <= finalBlockHeight then Some(a) else old(from)
      ensures r.End? ==> finalBlockHeight < height && Ready(height)
      ensures r.Failed? ==> r.error == FetchFailed && height <= finalBlockHeight
    {
      if |batch| == 0 {
        var hasMore, error := NextBatch(a);
        if error.Some? {
          return Failed(error.value);
        }
        if !hasMore {
          return End;
        }
      }
      r := Got(batch[0]);
      batch := batch[1..];
    }
  }

  // ---------------------------------------------------------------------------------------------
  // sync.Iterator

  /** Node and store parameters of an iteration. */
  datatype Client = Client(batchSize: nat, parallelism: nat)

  class Iterator {
    const client: Client
    const finalHeight: int
    var height: int
    /** Whether the block store is still read; what it answers is a parameter of `Next`. */
    var bStoreIt: bool
    var chainIt: ChainIterator?

    /** What holds until an error is returned. */
    ghost predicate Valid()
      reads this, chainIt
    {
      && client.batchSize > 0 && client.parallelism > 0
      && (bStoreIt <==> chainIt == null)
      && (chainIt != null ==>
            && chainIt.Ready(height) && chainIt.finalBlockHeight == finalHeight
            && chainIt.batchSize == client.batchSize && chainIt.parallelism == client.parallelism)
    }

    constructor (startHeight: int, finalHeight: int, lastStoredHeight: int, client: Client)
      requires client.batchSize > 0 && client.parallelism > 0
      ensures Valid() && height == startHeight && this.finalHeight == finalHeight && this.client == client
      ensures bStoreIt == (startHeight <= lastStoredHeight)
      ensures chainIt != null ==> fresh(chainIt) && chainIt.from == None
    {
      this.client, this.finalHeight, height := client, finalHeight, startHeight;
      if startHeight <= lastStoredHeight {
        bStoreIt, chainIt := true, null;
      } else {
        var it := new ChainIterator(startHeight, finalHeight, client.batchSize, client.parallelism);
        bStoreIt, chainIt := false, it;
      }
    }

    /**
      The next block has the next height. Both "programming error" branches and the height check on blocks from the node
      are out of reach; only a store that answers the wrong height, or a failed fetch, end the iteration early.
     */
    method Next(stored: Answer, a: NodeAnswers) returns (r: Answer)
      requires Valid() && IsNode(a)
      modifies this, chainIt
      ensures r.Got? ==> r.block.height == old(height) <= finalHeight && height == old(height) + 1 && Valid()
      ensures !r.Got? ==> height == old(height)
      ensures r.End? <==> finalHeight < old(height)
      ensures r.Failed? ==> r.error == FetchFailed || r.error == StoreHeightMismatch
      ensures r == Failed(StoreHeightMismatch) ==> old(bStoreIt) && stored.Got? && stored.block.height != old(height)
      ensures chainIt != old(chainIt) ==> fresh(chainIt)
      ensures bStoreIt ==> old(bStoreIt) && (r.Got? ==> r == stored)
      ensures r.Got? && !bStoreIt ==> chainIt != null && chainIt.HasGiven(r.block)
      ensures chainIt != null ==>
                chainIt.from == Some(a) || chainIt.from == None || (old(chainIt) == chainIt && chainIt.from == old(chainIt.from))
      ensures old(bStoreIt) && stored.Got? && stored.block.height == old(height) <= finalHeight ==> r == stored && bStoreIt
    {
      if finalHeight < height {
        return End;
      }
      if bStoreIt {
        if stored.Got? {
          if stored.block.height != height {
            return Failed(StoreHeightMismatch);
          }
          height := height + 1;
          return stored;
        }
        bStoreIt := false;
        chainIt := new ChainIterator(height, finalHeight, client.batchSize, client.parallelism);
      }
      if chainIt == null {
        return Failed(NoIterator);
      }
      r := chainIt.Next(a, height);
      if r.Got? {
        if r.block.height != height {
          return Failed(ChainHeightMismatch);
        }
        height := height + 1;
      } else if r.End? {
        r := Failed(NoResultNoError);
      }
    }
  }

  // ---------------------------------------------------------------------------------------------
  // CatchUp

  /** What happens around one round of the loop in `CatchUp`. */
  datatype Turn = Turn(cancelled: bool, stored: Answer, node: NodeAnswers, cancelledInSend: bool)

  /** How a `CatchUp` ended. */
  datatype Outcome = StatusFailed | FetchError | Cancelled | Finished(inSync: bool)

  ghost predicate AreTurns(turns: seq<Turn>) {
    forall i | 0 <= i < |turns| :: IsNode(turns[i].node)
  }

  /** What turn `i` sends: the store's block, or the node's, given in this turn or when an earlier one fetched its batch. */
  ghost predicate IsDelivered(turns: seq<Turn>, i: nat, b: Block)
    requires i < |turns|
  {
    turns[i].stored == Got(b) || exists m | 0 <= m <= i :: IsNodeBlock(turns[m].node, b)
  }

  /** One block in each turn. */
  ghost predicate AreDelivered(turns: seq<Turn>, blocks: seq<Block>) {
    |blocks| <= |turns| && forall i | 0 <= i < |blocks| :: IsDelivered(turns, i, blocks[i])
  }

  ghost predicate IsFromTurns(from: Option<NodeAnswers>, turns: seq<Turn>, n: nat)
    requires n <= |turns|
  {
    from.Some? ==> exists m | 0 <= m < n :: turns[m].node == from.value
  }

  lemma TurnDelivers(it: Iterator, turns: seq<Turn>, n: nat, answer: Answer)
    requires n < |turns| && answer.Got? && (it.bStoreIt ==> answer == turns[n].stored)
    requires !it.bStoreIt ==> it.chainIt != null && it.chainIt.HasGiven(answer.block)
    requires it.chainIt != null ==> IsFromTurns(it.chainIt.from, turns, n + 1)
    ensures IsDelivered(turns, n, answer.block)
  {
  }

  lemma OneDeliveredMore(turns: seq<Turn>, before: seq<Block>, sent: seq<Block>, b: Block, n: nat)
    requires n < |turns| && |sent| == |before| + n && AreDelivered(turns, sent[|before|..]) && IsDelivered(turns, n, b)
    ensures AreDelivered(turns, (sent + [b])[|before|..])
  {
    assert (sent + [b])[|before|..] == sent[|before|..] + [b];
  }

  class Sync {
    const client: Client
    var failedThorNodeFetchHeight: int
    /** The blocks sent to the channel, in order. */
    var sent: seq<Block>

    constructor (client: Client)
      ensures this.client == client && failedThorNodeFetchHeight == -1 && sent == []
    {
      this.client, failedThorNodeFetchHeight, sent := client, -1, [];
    }

    /** The height to catch up to: that of the last failed attempt until it is passed, or else the node's status. */
    function Target(startHeight: int, status: Option<int>): Option<int>
      reads this
    {
      if startHeight <= failedThorNodeFetchHeight && 0 < failedThorNodeFetchHeight then Some(failedThorNodeFetchHeight)
      else status
    }

    /** Takes the target out of the memory of the last failure, if it is not passed yet, or from the node's status. */
    method ChooseTarget(startHeight: int, status: Option<int>) returns (target: Option<int>)
      modifies this`failedThorNodeFetchHeight
      ensures target == old(Target(startHeight, status)) && failedThorNodeFetchHeight <= 0
    {
      if failedThorNodeFetchHeight < startHeight {
        failedThorNodeFetchHeight := -1;
      }
      if 0 < failedThorNodeFetchHeight {
        target := Some(failedThorNodeFetchHeight);
        failedThorNodeFetchHeight := -1;
      } else {
        target := status;
      }
    }

    /**
      Sends the blocks from `startHeight` on, without gaps, and returns the height after the last one sent. `turns` is
      how long it gets to run: after them it is cancelled.
     */
    method CatchUp(startHeight: int, status: Option<int>, lastStoredHeight: int, turns: seq<Turn>)
        returns (height: int, outcome: Outcome)
      requires client.batchSize > 0 && client.parallelism > 0 && AreTurns(turns)
      modifies this
      ensures AreSent(old(sent), sent, startHeight, height) && AreDelivered(turns, sent[|old(sent)|..])
      ensures outcome == StatusFailed <==> old(Target(startHeight, status)).None?
      ensures outcome == StatusFailed ==> height == startHeight
      ensures outcome == FetchError ==> failedThorNodeFetchHeight == old(Target(startHeight, status)).value >= height
      ensures outcome != FetchError ==> failedThorNodeFetchHeight == -1 || failedThorNodeFetchHeight <= 0
      ensures outcome.Finished? ==>
                var target := old(Target(startHeight, status)).value;
                height == (if startHeight <= target then target + 1 else startHeight)
                && outcome.inSync == (target < startHeight + 10)
      ensures outcome != StatusFailed && startHeight <= old(Target(startHeight, status)).value ==>
                height <= old(Target(startHeight, status)).value + 1
    {
      height := startHeight;
      var target := ChooseTarget(startHeight, status);
      if target.None? {
        return startHeight, StatusFailed;
      }
      var finalBlockHeight := target.value;
      var it := new Iterator(startHeight, finalBlockHeight, lastStoredHeight, client);
      var inSync := finalBlockHeight < startHeight + 10;
      for n := 0 to |turns|
        invariant it.Valid() && fresh(it) && (it.chainIt != null ==> fresh(it.chainIt))
        invariant it.height == height && it.finalHeight == finalBlockHeight && startHeight <= height
        invariant startHeight <= finalBlockHeight ==> height <= finalBlockHeight + 1
        invariant startHeight > finalBlockHeight ==> height == startHeight
        invariant failedThorNodeFetchHeight <= 0
        invariant AreSent(old(sent), sent, startHeight, height)
        invariant |sent| == |old(sent)| + n && AreDelivered(turns, sent[|old(sent)|..])
        invariant it.chainIt != null ==> IsFromTurns(it.chainIt.from, turns, n)
      {
        if turns[n].cancelled {
          return height, Cancelled;
        }
        var answer := it.Next(turns[n].stored, turns[n].node);
        match answer {
          case Failed(_) =>
            failedThorNodeFetchHeight := finalBlockHeight;
            return height, FetchError;
          case End =>
            return height, Finished(inSync);
          case Got(block) =>
            if turns[n].cancelledInSend {
              return height, Cancelled;
            }
            OneSentMore(old(sent), sent, startHeight, height, block);
            TurnDelivers(it, turns, n, answer);
            OneDeliveredMore(turns, old(sent), sent, block, n);
            sent := sent + [block];
            height := block.height + 1;
        }
      }
      outcome := Cancelled;
    }

    /** After a failed call its target is remembered, and not yet passed. */
    ghost predicate Remembers(log: seq<Call>, nextHeight: int)
      reads this`failedThorNodeFetchHeight
    {
      log != [] && log[|log| - 1].outcome == FetchError ==>
        log[|log| - 1].target == Some(failedThorNodeFetchHeight) && nextHeight <= failedThorNodeFetchHeight
    }

    /** One call of `CatchUp` from where the calls before it, which began at `start`, have got to. */
    method CallOnce(nextHeight: int, round: Round, ghost log: seq<Call>, ghost start: int)
        returns (end: int, failed: bool, ghost call: Call)
      requires client.batchSize > 0 && client.parallelism > 0 && AreTurns(round.turns)
      requires 0 < nextHeight && LeadsTo(log, start, nextHeight) && RemembersTargets(log) && Remembers(log, nextHeight)
      modifies this
      ensures LeadsTo(log + [call], start, end) && RemembersTargets(log + [call]) && Remembers(log + [call], end)
      ensures call.start == nextHeight && call.end == end && (failed <==> HasFailed(call))
      ensures AreSent(old(sent), sent, nextHeight, end) && AreDelivered(round.turns, sent[|old(sent)|..])
    {
      ghost var target := Target(nextHeight, round.status);
      var outcome;
      end, outcome := CatchUp(nextHeight, round.status, round.lastStoredHeight, round.turns);
      failed := outcome == StatusFailed || outcome == FetchError;
      call := Call(nextHeight, target, end, outcome);
      LeadsOn(log, start, nextHeight, call);
      TargetStays(log, call);
    }

    /**
      `KeepInSync`: calls of `CatchUp`, each from where the one before stopped, until one of them brings the number of
      counted failures at one height above twenty: those of all calls that ended there, save the one that got there.
      `rounds` is how long it gets to run; `log` records the calls.
     */
    method KeepInSync(heightOnStart: int, rounds: seq<Round>) returns (quit: bool, nextHeight: int, ghost log: seq<Call>)
      requires client.batchSize > 0 && client.parallelism > 0 && 0 <= heightOnStart
      requires forall i | 0 <= i < |rounds| :: AreTurns(rounds[i].turns)
      modifies this
      ensures AreSent(old(sent), sent, heightOnStart + 1, nextHeight)
      ensures forall i | |old(sent)| <= i < |sent| :: IsDeliveredIn(rounds, sent[i])
      ensures |log| <= |rounds| && (!quit ==> |log| == |rounds|)
      ensures LeadsTo(log, heightOnStart + 1, nextHeight) && RemembersTargets(log)
      ensures quit <==> CountedFailures(log, nextHeight) > 20
      ensures quit ==> CountedFailures(log, nextHeight) == 21
    {
      failedThorNodeFetchHeight := -1;
      nextHeight := heightOnStart + 1;
      var previousHeight := 0;
      var errorCountAtCurrentHeight := 0;
      log := [];
      for n := 0 to |rounds|
        invariant |log| == n && LeadsTo(log, heightOnStart + 1, nextHeight)
        invariant RemembersTargets(log) && Remembers(log, nextHeight)
        invariant 0 < nextHeight && AreSent(old(sent), sent, heightOnStart + 1, nextHeight)
        invariant forall i | |old(sent)| <= i < |sent| :: IsDeliveredIn(rounds, sent[i])
        invariant previousHeight == if log == [] then 0 else nextHeight
        invariant errorCountAtCurrentHeight == CountedFailures(log, nextHeight) <= 20
      {
        ghost var sentBefore, call := sent, *;
        var end, failed;
        end, failed, call := CallOnce(nextHeight, rounds[n], log, heightOnStart + 1);
        CountGoesOn(log, call, heightOnStart + 1);
        RoundDelivers(rounds, n, sentBefore, sent);
        Appended(old(sent), sentBefore, sent, heightOnStart + 1, nextHeight, end);
        log := log + [call];
        nextHeight := end;
        if failed {
          if nextHeight == previousHeight {
            errorCountAtCurrentHeight := errorCountAtCurrentHeight + 1;
            if 20 < errorCountAtCurrentHeight {
              return true, nextHeight, log;
            }
          }
        }
        if previousHeight != nextHeight {
          previousHeight := nextHeight;
          errorCountAtCurrentHeight := 0;
        }
      }
      quit := false;
    }
  }

  /** The blocks from one height to another, without gaps, have been added to those sent before. */
  ghost predicate AreSent(before: seq<Block>, sent: seq<Block>, from: int, to: int) {
    from <= to && before <= sent && |sent| == |before| + (to - from) && Contiguous(sent[|before|..], from)
  }

  lemma OneSentMore(before: seq<Block>, sent: seq<Block>, from: int, to: int, block: Block)
    requires AreSent(before, sent, from, to) && block.height == to
    ensures AreSent(before, sent + [block], from, to + 1)
  {
    assert (sent + [block])[|before|..] == sent[|before|..] + [block];
  }

  lemma Appended(first: seq<Block>, second: seq<Block>, third: seq<Block>, start: int, middle: int, end: int)
    requires AreSent(first, second, start, middle) && AreSent(second, third, middle, end)
    ensures AreSent(first, third, start, end)
  {
    forall i | 0 <= i < |third| - |first|
      ensures third[|first|..][i].height == start + i
    {
      if i < |second| - |first| {
        assert third[|first| + i] == second[|first| + i] == second[|first|..][i];
      } else {
        assert third[|first| + i] == third[|second|..][i - (|second| - |first|)];
      }
    }
  }

  /** What happens around one round of the loop in `KeepInSync`. */
  datatype Round = Round(status: Option<int>, lastStoredHeight: int, turns: seq<Turn>)

  /** Some turn of some round delivered the block. */
  ghost predicate IsDeliveredIn(rounds: seq<Round>, b: Block) {
    exists r, i | 0 <= r < |rounds| && 0 <= i < |rounds[r].turns| :: IsDelivered(rounds[r].turns, i, b)
  }

  lemma RoundDelivers(rounds: seq<Round>, r: nat, before: seq<Block>, sent: seq<Block>)
    requires r < |rounds| && before <= sent && AreDelivered(rounds[r].turns, sent[|before|..])
    ensures forall i | |before| <= i < |sent| :: IsDeliveredIn(rounds, sent[i])
  {
    forall i | |before| <= i < |sent|
      ensures IsDeliveredIn(rounds, sent[i])
    {
      assert sent[|before|..][i - |before|] == sent[i];
      assert IsDelivered(rounds[r].turns, i - |before|, sent[i]);
    }
  }

  /** One call of `CatchUp`: from where, to which height it meant to go, and how far it got. */
  datatype Call = Call(start: int, target: Option<int>, end: int, outcome: Outcome)

  /** Chained calls from one height to another. */
  ghost predicate LeadsTo(log: seq<Call>, start: int, end: int) {
    IsChained(log, start) && end == if log == [] then start else log[|log| - 1].end
  }

  lemma LeadsOn(log: seq<Call>, start: int, end: int, call: Call)
    requires LeadsTo(log, start, end) && call.start == end <= call.end
    ensures LeadsTo(log + [call], start, call.end)
  {
  }

  /** A call after a failed one means to go to the same height. */
  ghost predicate RemembersTargets(log: seq<Call>) {
    forall i, j | 0 <= i < j < |log| && j == i + 1 && log[i].outcome == FetchError :: log[j].target == log[i].target
  }

  lemma TargetStays(log: seq<Call>, call: Call)
    requires RemembersTargets(log)
    requires log != [] && log[|log| - 1].outcome == FetchError ==> call.target == log[|log| - 1].target
    ensures RemembersTargets(log + [call])
  {
  }

  /** Each call starts where the one before ended, and goes on from there. */
  ghost predicate IsChained(log: seq<Call>, start: int) {
    && (log != [] ==> log[0].start == start)
    && (forall i | 0 <= i < |log| :: log[i].start <= log[i].end)
    && forall i, j | 0 <= i < j < |log| && j == i + 1 :: log[j].start == log[i].end
  }

  predicate HasFailed(c: Call) { c.outcome == StatusFailed || c.outcome == FetchError }

  /** The failed calls that ended at a height. */
  function FailuresAt(log: seq<Call>, height: int): nat {
    if log == [] then 0
    else
      var last := log[|log| - 1];
      FailuresAt(log[..|log| - 1], height) + if last.end == height && HasFailed(last) then 1 else 0
  }

  /** The call that got to the height, or is the first of all, failed there. */
  predicate ArrivedFailing(log: seq<Call>, height: int) {
    exists i | 0 <= i < |log| :: log[i].end == height && HasFailed(log[i]) && (i == 0 || log[i].start < log[i].end)
  }

  /** The failures that count towards giving up at a height: all but that of the call that got there. */
  function CountedFailures(log: seq<Call>, height: int): int {
    FailuresAt(log, height) - if ArrivedFailing(log, height) then 1 else 0
  }

  lemma {:induction false} EndsRise(log: seq<Call>, start: int, i: nat)
    requires IsChained(log, start) && i < |log|
    ensures log[i].end <= log[|log| - 1].end
    ensures i < |log| - 1 ==> log[i].end <= log[|log| - 1].start
    decreases |log| - i
  {
    if i < |log| - 1 {
      EndsRise(log, start, i + 1);
      assert log[i + 1].start == log[i].end;
    }
  }

  lemma {:induction false} NoFailuresAt(log: seq<Call>, height: int)
    requires forall i | 0 <= i < |log| :: log[i].end < height
    ensures FailuresAt(log, height) == 0
  {
    if log != [] {
      NoFailuresAt(log[..|log| - 1], height);
    }
  }

  lemma OneCallMore(log: seq<Call>, c: Call, height: int)
    ensures FailuresAt(log + [c], height) == FailuresAt(log, height) + if c.end == height && HasFailed(c) then 1 else 0
    ensures ArrivedFailing(log + [c], height) <==>
            || ArrivedFailing(log, height)
            || (c.end == height && HasFailed(c) && (log == [] || c.start < c.end))
  {
    assert (log + [c])[..|log|] == log;
    if ArrivedFailing(log, height) {
      var i :| 0 <= i < |log| && log[i].end == height && HasFailed(log[i]) && (i == 0 || log[i].start < log[i].end);
      assert (log + [c])[i] == log[i];
    }
    assert (log + [c])[|log|] == c;
  }

  /** How the count goes on: a call that gets further starts it anew, any other adds its failure. */
  lemma CountGoesOn(log: seq<Call>, c: Call, start: int)
    requires IsChained(log + [c], start)
    ensures CountedFailures(log + [c], c.end) ==
            if log == [] || c.start < c.end then 0
            else CountedFailures(log, c.end) + if HasFailed(c) then 1 else 0
  {
    OneCallMore(log, c, c.end);
    var more := log + [c];
    if log == [] || c.start < c.end {
      forall i | 0 <= i < |log|
        ensures log[i].end < c.end
      {
        EndsRise(more, start, i);
        assert more[i] == log[i] && more[|log|] == c;
      }
      NoFailuresAt(log, c.end);
    }
  }
}
