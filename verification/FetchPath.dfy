/**
  internal/fetch/sync/iterator.go on a block store: what the iterator of Fetching.dfy reads when its store is one that
  BlockStorage.dfy has filled.
 */
module FetchPath {
  import Fetching
  import BlockStorage
  import opened Options

  function Loaded(b: BlockStorage.Block): Fetching.Block {
    Fetching.Block(b.height, b.body, b.results)
  }

  function Translated(a: BlockStorage.Answer): Fetching.Answer {
    match a
    case Got(b) => Fetching.Got(Loaded(b))
    case End => Fetching.End
    case Error => Fetching.Failed(Fetching.FetchFailed)
  }

  ghost predicate AreNodes(nodes: seq<Fetching.NodeAnswers>) {
    forall i | 0 <= i < |nodes| :: Fetching.IsNode(nodes[i])
  }

  /** A block of the shelf's chunks is the one that was dumped, wherever the iteration started. */
  ghost predicate IsFromStore(b: Fetching.Block, j: BlockStorage.Shelf)
    requires BlockStorage.Sound(j) && j.base < b.height <= j.LastEnd()
  {
    b == Loaded(j.blocks[b.height - j.base - 1])
  }

  ghost predicate IsFromNodes(b: Fetching.Block, nodes: seq<Fetching.NodeAnswers>, i: nat)
    requires i < |nodes|
  {
    exists m | 0 <= m <= i :: Fetching.IsNodeBlock(nodes[m], b)
  }

  ghost predicate HasSource(b: Fetching.Block, j: BlockStorage.Shelf, nodes: seq<Fetching.NodeAnswers>, i: nat)
    requires BlockStorage.Sound(j) && i < |nodes|
  {
    if j.base < b.height <= j.LastEnd() then IsFromStore(b, j) else IsFromNodes(b, nodes, i)
  }

  /** Up to the end of the chunks the store's own blocks, beyond it those the node gave for the heights. */
  ghost predicate HaveSources(blocks: seq<Fetching.Block>, j: BlockStorage.Shelf, nodes: seq<Fetching.NodeAnswers>)
    requires BlockStorage.Sound(j)
  {
    |blocks| <= |nodes| && forall i | 0 <= i < |blocks| :: HasSource(blocks[i], j, nodes, i)
  }

  lemma OneBlockMore(blocks: seq<Fetching.Block>, b: Fetching.Block, j: BlockStorage.Shelf, nodes: seq<Fetching.NodeAnswers>)
    requires BlockStorage.Sound(j) && HaveSources(blocks, j, nodes) && |blocks| < |nodes| && HasSource(b, j, nodes, |blocks|)
    ensures HaveSources(blocks + [b], j, nodes)
  {
  }

  ghost predicate IsFromAny(from: Option<Fetching.NodeAnswers>, nodes: seq<Fetching.NodeAnswers>, n: nat)
    requires n <= |nodes|
  {
    from.Some? ==> exists m | 0 <= m < n :: nodes[m] == from.value
  }

  lemma NodeGaveIt(it: Fetching.ChainIterator, b: Fetching.Block, nodes: seq<Fetching.NodeAnswers>, i: nat)
    requires i < |nodes| && it.HasGiven(b) && IsFromAny(it.from, nodes, i + 1)
    ensures IsFromNodes(b, nodes, i)
  {
  }

  /** A sound store answers a height with its own block. */
  lemma StoredHeights(j: BlockStorage.Shelf, h: nat)
    requires BlockStorage.Sound(j)
    ensures var s := BlockStorage.Stored(j, h); s.Got? ==> s.block.height == h
    ensures j.base < h <= j.LastEnd() ==>
              BlockStorage.Stored(j, h).Got? && IsFromStore(Loaded(BlockStorage.Stored(j, h).block), j)
  {
  }

  class BlockSource {
    const stored: BlockStorage.Iterator
    const it: Fetching.Iterator

    /** While the store is read, both iterators stand at the same height. */
    ghost predicate Valid(j: BlockStorage.Shelf)
      reads this, stored, it, it.chainIt, stored.store
    {
      && stored.store != null && BlockStorage.Chunked(stored.store.files, j)
      && it.Valid()
      && (it.bStoreIt ==> stored.nextHeight == it.height && BlockStorage.IsPositioned(stored.reader, stored.nextHeight, j))
    }

    constructor (store: BlockStorage.BlockStore, startHeight: nat, finalHeight: int, client: Fetching.Client,
                 ghost j: BlockStorage.Shelf)
      requires BlockStorage.Chunked(store.files, j) && store.lastFetched == j.LastEnd()
      requires client.batchSize > 0 && client.parallelism > 0
      ensures Valid(j) && stored.store == store && it.height == startHeight && it.finalHeight == finalHeight
      ensures it.bStoreIt <==> startHeight <= j.LastEnd()
      ensures fresh(stored) && fresh(it) && (it.chainIt != null ==> fresh(it.chainIt) && it.chainIt.from == None)
    {
      stored := new BlockStorage.Iterator(store, startHeight);
      it := new Fetching.Iterator(startHeight, finalHeight, store.lastFetched, client);
    }

    /** The store is asked only while it is still read and the final height is not passed. */
    method AskStore(ghost j: BlockStorage.Shelf) returns (answer: Fetching.Answer)
      requires Valid(j)
      modifies stored
      ensures it.bStoreIt && it.height <= it.finalHeight ==>
                && it.height >= 0 && answer == Translated(BlockStorage.Stored(j, it.height))
                && BlockStorage.IsPositioned(stored.reader, stored.nextHeight, j)
                && stored.nextHeight == if answer.Got? then it.height + 1 else it.height
      ensures !(it.bStoreIt && it.height <= it.finalHeight) ==>
                answer.End? && stored.nextHeight == old(stored.nextHeight) && stored.reader == old(stored.reader)
    {
      answer := Fetching.End;
      if it.bStoreIt && it.height <= it.finalHeight {
        var s := stored.Next(j);
        answer := Translated(s);
      }
    }

    method Next(a: Fetching.NodeAnswers, ghost j: BlockStorage.Shelf) returns (r: Fetching.Answer)
      requires Valid(j) && Fetching.IsNode(a)
      modifies stored, it, it.chainIt
      ensures r.Got? ==> Valid(j) && r.block.height == old(it.height) <= it.finalHeight && it.height == old(it.height) + 1
      ensures r.End? <==> it.finalHeight < old(it.height)
      ensures r.Failed? ==> r.error == Fetching.FetchFailed
      ensures old(it.bStoreIt) && j.base < old(it.height) <= j.LastEnd() && old(it.height) <= it.finalHeight ==>
                r.Got? && IsFromStore(r.block, j) && it.bStoreIt
      ensures r.Got? && !(old(it.bStoreIt) && j.base < old(it.height) <= j.LastEnd()) ==>
                it.chainIt != null && it.chainIt.HasGiven(r.block)
      ensures it.chainIt != null ==>
                it.chainIt.from == Some(a) || it.chainIt.from == None
                || (it.chainIt == old(it.chainIt) && it.chainIt.from == old(it.chainIt.from))
      ensures it.bStoreIt ==> old(it.bStoreIt)
      ensures it.chainIt != old(it.chainIt) ==> fresh(it.chainIt)
    {
      var answer := AskStore(j);
      ghost var height := it.height;
      r := it.Next(answer, a);
      if it.bStoreIt {
        StoredHeights(j, height);
      }
    }
  }

  /**
    Reads through the store and on from the node, one answer of the node per call: no height is skipped, the blocks of
    the store's chunks are the ones that were dumped, those beyond are the ones the node gave, and nothing but a failed
    fetch ends the iteration before the final height.
   */
  method ReadThrough(store: BlockStorage.BlockStore, startHeight: nat, finalHeight: int, client: Fetching.Client,
                     nodes: seq<Fetching.NodeAnswers>, ghost j: BlockStorage.Shelf)
      returns (blocks: seq<Fetching.Block>, last: Fetching.Answer)
    requires BlockStorage.Chunked(store.files, j) && store.lastFetched == j.LastEnd() && j.base < startHeight
    requires client.batchSize > 0 && client.parallelism > 0 && AreNodes(nodes)
    ensures Fetching.Contiguous(blocks, startHeight) && HaveSources(blocks, j, nodes)
    ensures last.Failed? ==> last.error == Fetching.FetchFailed && j.LastEnd() < startHeight + |blocks|
    ensures last.End? <==> |blocks| < |nodes| && finalHeight < startHeight + |blocks|
    ensures last.Got? ==> |blocks| == |nodes|
  {
    var source := new BlockSource(store, startHeight, finalHeight, client, j);
    blocks, last := [], Fetching.Got(Fetching.ZERO);
    for i := 0 to |nodes|
      invariant last.Got? && |blocks| == i && source.Valid(j)
      invariant source.stored.store == store && fresh(source.stored) && fresh(source.it)
      invariant source.it.chainIt != null ==> fresh(source.it.chainIt)
      invariant source.it.height == startHeight + i && source.it.finalHeight == finalHeight
      invariant startHeight + i <= j.LastEnd() ==> source.it.bStoreIt
      invariant source.it.chainIt != null ==> IsFromAny(source.it.chainIt.from, nodes, i)
      invariant Fetching.Contiguous(blocks, startHeight) && HaveSources(blocks, j, nodes)
    {
      last := source.Next(nodes[i], j);
      if !last.Got? {
        return;
      }
      if j.LastEnd() < startHeight + i {
        NodeGaveIt(source.it.chainIt, last.block, nodes, i);
      }
      OneBlockMore(blocks, last.block, j, nodes);
      blocks := blocks + [last.block];
    }
  }
}
