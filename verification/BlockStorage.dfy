/**
  The block store (internal/fetch/sync/blockstore): blocks are appended as lines to a temporary file, which is renamed to
  a chunk named after its last height; an iterator finds a height's chunk by binary search and reads on from there.
 */
module BlockStorage {
  import opened ChunkNames
  import opened Options
  import Multiples

  /** A block; `body` and `results` stand for everything the gob line carries besides the height. */
  datatype Block = Block(height: nat, body: string, results: string)

  /** A line of a chunk file: the clear-text prefix and the encoded block. */
  datatype Line = Line(prefix: string, block: Block)

  type Files = map<string, seq<Line>>

  const PREFIX_LENGTH := 24

  function Prefix(height: nat): string { "height=" + Format12(height) + ",gob=" }

  function LineOf(b: Block): Line { Line(Prefix(b.height), b) }

  function Lines(bs: seq<Block>): seq<Line> {
    seq(|bs|, i requires 0 <= i < |bs| => LineOf(bs[i]))
  }

  /** Does the line start with this height's prefix? Only the first 24 characters of the line are compared. */
  predicate MatchesHeight(line: Line, height: nat) {
    |line.prefix| >= PREFIX_LENGTH && line.prefix[..PREFIX_LENGTH] == Prefix(height)
  }

  lemma MatchIsByHeight(b: Block, height: nat)
    requires b.height < Pow10(12)
    ensures MatchesHeight(LineOf(b), height) <==> b.height == height
  {
    var own, other := Prefix(b.height), Prefix(height);
    assert own[..PREFIX_LENGTH] == own;
    if own == other {
      var n := |Format12(height)|;
      assert own[7..19] == Format12(b.height);
      assert other[7..7 + n] == Format12(height);
      NamesAreDistinct(b.height, height);
    }
  }

  // ---------------------------------------------------------------------------------------------
  // Writing

  /** The folder and the fields of the block store that the writer uses. */
  datatype State = State(files: Files, isOpen: bool, cursor: int, lastFetched: int)

  function Finalized(s: State, name: string): State
    requires s.isOpen ==> TMP in s.files
  {
    if s.isOpen then s.(files := (s.files - {TMP})[name := s.files[TMP]], isOpen := false) else s
  }

  predicate EndsChunk(b: Block, force: bool, perChunk: nat)
    requires perChunk > 0
  {
    b.height % perChunk == 0 || force
  }

  function Appended(s: State, b: Block): State
    requires s.isOpen ==> TMP in s.files
  {
    var written := if s.isOpen then s.files[TMP] else [];
    s.(files := s.files[TMP := written + [LineOf(b)]], isOpen := true, cursor := b.height)
  }

  function Dumped(s: State, b: Block, force: bool, perChunk: nat): State
    requires s.isOpen ==> TMP in s.files
    requires perChunk > 0
  {
    var t := Appended(s, b);
    if EndsChunk(b, force, perChunk) then Finalized(t, Format12(b.height)) else t
  }

  function Closed(s: State): State
    requires s.isOpen ==> TMP in s.files
  {
    Finalized(s, ChunkName(s.cursor) + ".tmp")
  }

  function Cleaned(files: Files): Files {
    map name | name in files && !IsTemporaryChunk(name) :: files[name]
  }

  // ---------------------------------------------------------------------------------------------
  // What the folder holds

  /** The blocks dumped from height base + 1 on, and the heights at which chunks end. */
  datatype Shelf = Shelf(blocks: seq<Block>, ends: seq<nat>, base: nat) {
    function Top(): nat { base + |blocks| }

    function LastEnd(): nat { if ends == [] then base else ends[|ends| - 1] }

    function StartOf(i: nat): nat
      requires i < |ends|
    {
      if i == 0 then base else ends[i - 1]
    }

    /** The blocks with heights in (from, to]. */
    function Part(from: nat, to: nat): seq<Block>
      requires base <= from <= to <= Top()
    {
      blocks[from - base..to - base]
    }
  }

  /** Heights are consecutive and have at most twelve digits; chunk ends increase. */
  ghost predicate Sound(j: Shelf) {
    && j.Top() < Pow10(12)
    && (forall i | 0 <= i < |j.blocks| :: j.blocks[i].height == j.base + 1 + i)
    && (forall i | 0 <= i < |j.ends| :: j.base < j.ends[i] <= j.Top())
    && forall i, k | 0 <= i < k < |j.ends| :: j.ends[i] < j.ends[k]
  }

  ghost predicate HasChunk(files: Files, j: Shelf, i: nat)
    requires Sound(j) && i < |j.ends|
  {
    && Format12(j.ends[i]) in files
    && files[Format12(j.ends[i])] == Lines(j.Part(j.StartOf(i), j.ends[i]))
  }

  ghost predicate IsChunkName(ends: seq<nat>, name: string) {
    exists i | 0 <= i < |ends| :: name == Format12(ends[i])
  }

  /** The files whose names parse as a height. */
  function ChunkHeights(files: Files): map<string, int> {
    map name | name in files && ParseInt(name).Some? :: ParseInt(name).value
  }

  /** The chunk names in the folder are those made from `ends`. */
  ghost predicate NamedAfter(heights: map<string, int>, ends: seq<nat>) {
    && (forall i | 0 <= i < |ends| :: Format12(ends[i]) in heights && heights[Format12(ends[i])] == ends[i])
    && forall name | name in heights :: IsChunkName(ends, name)
  }

  /** The chunk files are exactly those ending at the shelf's ends, and hold the blocks up to the last of them, each once. */
  ghost predicate Chunked(files: Files, j: Shelf) {
    && Sound(j)
    && (forall i | 0 <= i < |j.ends| :: HasChunk(files, j, i))
    && NamedAfter(ChunkHeights(files), j.ends)
  }

  /** The temporary file holds the blocks after the last chunk. */
  ghost predicate Pending(s: State, j: Shelf)
    requires Sound(j)
  {
    if s.isOpen then
      TMP in s.files && s.files[TMP] == Lines(j.Part(j.LastEnd(), j.Top())) && s.cursor == j.Top()
    else j.LastEnd() == j.Top()
  }

  ghost predicate Inv(s: State, j: Shelf) {
    Chunked(s.files, j) && Pending(s, j)
  }

  lemma Pow12Fits()
    ensures Pow10(12) <= MAX_INT64
  {
    assert Pow10(6) == 1000000;
    assert Pow10(12) == 1000000 * Pow10(6) by {
      assert Pow10(9) == 1000 * Pow10(6);
      assert Pow10(12) == 1000 * Pow10(9);
    }
  }

  lemma ChunkNamesAreNotTemporary(h: nat)
    requires h < Pow10(12)
    ensures !IsTemporaryChunk(Format12(h)) && Format12(h) != TMP
  {
    Pow12Fits();
    NameRoundTrip(h);
    if IsTemporaryChunk(Format12(h)) {
      TemporaryNamesAreNoChunks(Format12(h));
    }
  }

  /** The folders differ in temporary files at most. */
  ghost predicate SameChunks(files: Files, changed: Files) {
    && (forall name | name in files && !IsTemporaryChunk(name) :: name in changed && changed[name] == files[name])
    && forall name | name in changed && !IsTemporaryChunk(name) :: name in files
  }

  lemma SameHeights(files: Files, changed: Files)
    requires SameChunks(files, changed)
    ensures ChunkHeights(changed) == ChunkHeights(files)
  {
    forall name | ParseInt(name).Some?
      ensures name in files <==> name in changed
    {
      if IsTemporaryChunk(name) {
        TemporaryNamesAreNoChunks(name);
      }
    }
  }

  /** The shelves have the same chunks, and the same blocks in them. */
  ghost predicate SameInChunks(j: Shelf, k: Shelf)
    requires Sound(j) && Sound(k)
  {
    k.ends == j.ends && k.base == j.base && k.Part(k.base, k.LastEnd()) == j.Part(j.base, j.LastEnd())
  }

  lemma SamePart(j: Shelf, k: Shelf, from: nat, to: nat)
    requires Sound(j) && Sound(k) && SameInChunks(j, k)
    requires j.base <= from <= to <= j.LastEnd()
    ensures k.Part(from, to) == j.Part(from, to)
  {
    SameWithin(j.blocks, k.blocks, j.LastEnd() - j.base, from - j.base, to - j.base);
  }

  lemma SameWithin(a: seq<Block>, b: seq<Block>, n: nat, from: nat, to: nat)
    requires from <= to <= n <= |a| && n <= |b| && a[0..n] == b[0..n]
    ensures a[from..to] == b[from..to]
  {
    assert a[from..to] == a[0..n][from..to];
    assert b[from..to] == b[0..n][from..to];
  }

  lemma FileSurvives(files: Files, changed: Files, name: string)
    requires SameChunks(files, changed) && name in files && !IsTemporaryChunk(name)
    ensures name in changed && changed[name] == files[name]
  {
  }

  lemma EndWithin(j: Shelf, i: nat)
    requires Sound(j) && i < |j.ends|
    ensures j.base <= j.StartOf(i) <= j.ends[i] <= j.LastEnd() <= j.Top()
  {
  }

  lemma ChunkSurvives(files: Files, changed: Files, j: Shelf, k: Shelf, i: nat)
    requires Sound(j) && Sound(k) && SameInChunks(j, k)
    requires SameChunks(files, changed)
    requires i < |j.ends| && HasChunk(files, j, i)
    ensures HasChunk(changed, k, i)
  {
    EndWithin(j, i);
    ChunkNamesAreNotTemporary(j.ends[i]);
    FileSurvives(files, changed, Format12(j.ends[i]));
    SamePart(j, k, j.StartOf(i), j.ends[i]);
  }

  /** What happens to temporary files, and to the blocks after the last chunk, leaves the chunks as they were. */
  lemma ChunksSurvive(files: Files, changed: Files, j: Shelf, k: Shelf)
    requires Chunked(files, j) && Sound(k) && SameInChunks(j, k)
    requires SameChunks(files, changed)
    ensures Chunked(changed, k)
  {
    forall i | 0 <= i < |k.ends|
      ensures HasChunk(changed, k, i)
    {
      assert HasChunk(files, j, i);
      ChunkSurvives(files, changed, j, k, i);
    }
    SameHeights(files, changed);
  }

  // ---------------------------------------------------------------------------------------------
  // Dumping

  /** The shelf with one more block, before its chunk is finished or not. */
  function More(j: Shelf, b: Block): Shelf { j.(blocks := j.blocks + [b]) }

  lemma MoreIsSound(j: Shelf, b: Block)
    requires Sound(j) && b.height == j.Top() + 1 < Pow10(12)
    ensures Sound(More(j, b)) && SameInChunks(j, More(j, b))
  {
    var k := More(j, b);
    assert k.Part(k.base, k.LastEnd()) == j.Part(j.base, j.LastEnd());
  }

  lemma LinesOfMore(blocks: seq<Block>, b: Block)
    ensures Lines(blocks + [b]) == Lines(blocks) + [LineOf(b)]
  {
  }

  lemma PartOfMore(j: Shelf, b: Block)
    requires Sound(j)
    ensures j.LastEnd() <= j.Top() && More(j, b).Top() == j.Top() + 1
    ensures More(j, b).Part(j.LastEnd(), j.Top() + 1) == j.Part(j.LastEnd(), j.Top()) + [b]
  {
  }

  lemma AppendKeepsPending(s: State, j: Shelf, b: Block)
    requires Sound(j) && Pending(s, j)
    requires b.height == j.Top() + 1 < Pow10(12)
    requires Sound(More(j, b))
    ensures Pending(Appended(s, b), More(j, b))
  {
    PartOfMore(j, b);
    LinesOfMore(j.Part(j.LastEnd(), j.Top()), b);
  }

  lemma TmpIsTemporary(files: Files, lines: seq<Line>)
    ensures SameChunks(files, files[TMP := lines])
  {
    assert IsTemporaryChunk(TMP);
  }

  lemma AppendKeepsInv(s: State, j: Shelf, b: Block)
    requires Inv(s, j)
    requires b.height == j.Top() + 1 < Pow10(12)
    ensures Inv(Appended(s, b), More(j, b))
  {
    MoreIsSound(j, b);
    AppendKeepsPending(s, j, b);
    var t := Appended(s, b);
    TmpIsTemporary(s.files, t.files[TMP]);
    ChunksSurvive(s.files, t.files, j, More(j, b));
  }

  lemma NamedAfterOneMore(heights: map<string, int>, ends: seq<nat>, h: nat)
    requires NamedAfter(heights, ends)
    ensures NamedAfter(heights[Format12(h) := h], ends + [h])
  {
    var more := ends + [h];
    forall i | 0 <= i < |more|
      ensures heights[Format12(h) := h][Format12(more[i])] == more[i]
    {
      if Format12(more[i]) == Format12(h) {
        NamesAreDistinct(more[i], h);
      }
    }
    forall name | name == Format12(h) || name in heights
      ensures IsChunkName(more, name)
    {
      if name == Format12(h) {
        assert more[|ends|] == h;
      } else {
        var i :| 0 <= i < |ends| && name == Format12(ends[i]);
        assert more[i] == ends[i];
      }
    }
  }

  lemma FinalizedHeights(t: State, h: nat)
    requires h < Pow10(12)
    requires t.isOpen && TMP in t.files
    ensures ChunkHeights(Finalized(t, Format12(h)).files) == ChunkHeights(t.files)[Format12(h) := h]
  {
    Pow12Fits();
    NameRoundTrip(h);
    TemporaryNamesAreNoChunks(TMP);
  }

  function WithEnd(j: Shelf, h: nat): Shelf { j.(ends := j.ends + [h]) }

  lemma OlderChunk(files: Files, changed: Files, j: Shelf, h: nat, i: nat)
    requires Sound(j) && Sound(WithEnd(j, h)) && i < |j.ends|
    requires HasChunk(files, j, i)
    requires forall name | name in files && name != TMP && name != Format12(h) ::
        name in changed && changed[name] == files[name]
    requires j.LastEnd() < h
    ensures HasChunk(changed, WithEnd(j, h), i)
  {
    EndWithin(j, i);
    ChunkNamesAreNotTemporary(j.ends[i]);
    if Format12(j.ends[i]) == Format12(h) {
      NamesAreDistinct(j.ends[i], h);
    }
    assert WithEnd(j, h).StartOf(i) == j.StartOf(i) && WithEnd(j, h).ends[i] == j.ends[i];
  }

  lemma NewestChunk(changed: Files, j: Shelf, h: nat)
    requires Sound(j) && Sound(WithEnd(j, h)) && h == j.Top()
    requires Format12(h) in changed && changed[Format12(h)] == Lines(j.Part(j.LastEnd(), j.Top()))
    ensures HasChunk(changed, WithEnd(j, h), |j.ends|)
  {
    assert WithEnd(j, h).StartOf(|j.ends|) == j.LastEnd();
  }

  lemma FinalizedChunks(files: Files, changed: Files, j: Shelf, h: nat)
    requires Sound(j) && Sound(WithEnd(j, h)) && h == j.Top() > j.LastEnd()
    requires forall i | 0 <= i < |j.ends| :: HasChunk(files, j, i)
    requires TMP in files && files[TMP] == Lines(j.Part(j.LastEnd(), j.Top()))
    requires changed == (files - {TMP})[Format12(h) := files[TMP]]
    ensures forall i | 0 <= i <= |j.ends| :: HasChunk(changed, WithEnd(j, h), i)
  {
    forall i | 0 <= i <= |j.ends|
      ensures HasChunk(changed, WithEnd(j, h), i)
    {
      if i < |j.ends| {
        assert HasChunk(files, j, i);
        OlderChunk(files, changed, j, h, i);
      } else {
        NewestChunk(changed, j, h);
      }
    }
  }

  lemma EndingIsSound(j: Shelf, h: nat)
    requires Sound(j) && h == j.Top() > j.LastEnd()
    ensures Sound(WithEnd(j, h)) && WithEnd(j, h).LastEnd() == h
  {
  }

  lemma FinalizeKeepsInv(t: State, j: Shelf, h: nat)
    requires Inv(t, j) && t.isOpen && h == j.Top() > j.LastEnd()
    ensures Inv(Finalized(t, Format12(h)), WithEnd(j, h))
  {
    EndingIsSound(j, h);
    FinalizedChunks(t.files, Finalized(t, Format12(h)).files, j, h);
    FinalizedHeights(t, h);
    NamedAfterOneMore(ChunkHeights(t.files), j.ends, h);
  }

  function Shelved(j: Shelf, b: Block, force: bool, perChunk: nat): Shelf
    requires perChunk > 0
  {
    if EndsChunk(b, force, perChunk) then WithEnd(More(j, b), b.height) else More(j, b)
  }

  /** Dumping the next block keeps the store sound, whether or not it ends a chunk. */
  lemma DumpKeepsInv(s: State, j: Shelf, b: Block, force: bool, perChunk: nat)
    requires Inv(s, j)
    requires perChunk > 0
    requires b.height == j.Top() + 1 < Pow10(12)
    ensures Inv(Dumped(s, b, force, perChunk), Shelved(j, b, force, perChunk))
  {
    AppendKeepsInv(s, j, b);
    if EndsChunk(b, force, perChunk) {
      FinalizeKeepsInv(Appended(s, b), More(j, b), b.height);
    }
  }

  /** After a forced dump, or one at a multiple, nothing is pending: block b and all before it are in the chunks. */
  lemma FinishedDump(s: State, j: Shelf, b: Block, force: bool, perChunk: nat)
    requires Inv(s, j) && perChunk > 0 && b.height == j.Top() + 1 < Pow10(12)
    requires force || b.height % perChunk == 0
    ensures var t, k := Dumped(s, b, force, perChunk), Shelf(j.blocks + [b], j.ends + [b.height], j.base);
            && !t.isOpen && TMP !in t.files && Inv(t, k)
            && Format12(b.height) in t.files && LineOf(b) in t.files[Format12(b.height)]
  {
    DumpKeepsInv(s, j, b, force, perChunk);
    ChunkNamesAreNotTemporary(b.height);
    var lines := Appended(s, b).files[TMP];
    assert lines[|lines| - 1] == LineOf(b);
  }

  // ---------------------------------------------------------------------------------------------
  // The directory and the binary search

  /** A folder as os.ReadDir lists it: every name once, sorted. */
  ghost predicate IsListing(names: seq<string>, all: set<string>) {
    && (forall name :: name in names <==> name in all)
    && forall i, j | 0 <= i < j < |names| :: Less(names[i], names[j])
  }

  lemma {:induction false} LeastName(names: set<string>) returns (least: string)
    requires names != {}
    ensures least in names && forall other | other in names :: other == least || Less(least, other)
    decreases |names|
  {
    var name :| name in names;
    var rest := names - {name};
    assert forall other | other in names :: other == name || other in rest;
    if rest == {} {
      least := name;
    } else {
      least := LeastName(rest);
      LessIsTotal(name, least);
      if Less(name, least) {
        forall other | other in rest
          ensures Less(name, other)
        {
          if other != least {
            LessIsTransitive(name, least, other);
          }
        }
        least := name;
      }
    }
  }

  method ReadDir(files: Files) returns (names: seq<string>)
    ensures IsListing(names, files.Keys)
  {
    names := [];
    var rest := files.Keys;
    while rest != {}
      invariant rest <= files.Keys
      invariant IsListing(names, files.Keys - rest)
      invariant forall a, b | a in names && b in rest :: Less(a, b)
      decreases |rest|
    {
      ghost var m := LeastName(rest);
      var name :| name in rest && forall other | other in rest :: other == name || Less(name, other);
      names, rest := names + [name], rest - {name};
    }
  }

  datatype Chunk = Chunk(name: string, height: int)

  /** Every chunk once, in name order. */
  ghost predicate IsChunkList(chunks: seq<Chunk>, heights: map<string, int>) {
    && (forall i | 0 <= i < |chunks| :: chunks[i].name in heights && heights[chunks[i].name] == chunks[i].height)
    && (forall name | name in heights :: Chunk(name, heights[name]) in chunks)
    && forall i, j | 0 <= i < j < |chunks| :: Less(chunks[i].name, chunks[j].name)
  }

  /** The chunks among some of the names, in their order. */
  ghost predicate ListsThose(chunks: seq<Chunk>, heights: map<string, int>, names: seq<string>) {
    && (forall i | 0 <= i < |chunks| ::
          chunks[i].name in names && chunks[i].name in heights && heights[chunks[i].name] == chunks[i].height)
    && (forall name | name in names && name in heights :: Chunk(name, heights[name]) in chunks)
    && forall i, j | 0 <= i < j < |chunks| :: Less(chunks[i].name, chunks[j].name)
  }

  lemma ListOneMore(chunks: seq<Chunk>, more: seq<Chunk>, heights: map<string, int>, names: seq<string>, name: string)
    requires ListsThose(chunks, heights, names)
    requires forall other | other in names :: Less(other, name)
    requires more == if name in heights then chunks + [Chunk(name, heights[name])] else chunks
    ensures ListsThose(more, heights, names + [name])
  {
    forall other | other in names + [name] && other in heights
      ensures Chunk(other, heights[other]) in more
    {
      if other == name {
        assert more[|chunks|] == Chunk(other, heights[other]);
      } else {
        var k :| 0 <= k < |chunks| && chunks[k] == Chunk(other, heights[other]);
        assert more[k] == chunks[k];
      }
    }
  }

  lemma EarlierAreLess(names: seq<string>, i: nat)
    requires i < |names|
    requires forall k, l | 0 <= k < l < |names| :: Less(names[k], names[l])
    ensures forall other | other in names[..i] :: Less(other, names[i])
    ensures names[..i + 1] == names[..i] + [names[i]]
  {
  }

  lemma AllListed(chunks: seq<Chunk>, heights: map<string, int>, names: seq<string>, all: set<string>)
    requires IsListing(names, all) && heights.Keys <= all
    requires ListsThose(chunks, heights, names)
    ensures IsChunkList(chunks, heights)
  {
    forall name | name in heights
      ensures Chunk(name, heights[name]) in chunks
    {
      assert name in all;
    }
  }

  /** What NewChunk finds in a name. */
  function HeightIn(heights: map<string, int>, name: string): Option<int> {
    if name in heights then Some(heights[name]) else None
  }

  lemma ParsedHeight(files: Files, name: string)
    requires name in files
    ensures ParseInt(name) == HeightIn(ChunkHeights(files), name)
  {
  }

  /** getLocalChunks */
  method LocalChunks(files: Files) returns (chunks: seq<Chunk>)
    ensures IsChunkList(chunks, ChunkHeights(files))
  {
    var names := ReadDir(files);
    chunks := [];
    for i := 0 to |names|
      invariant ListsThose(chunks, ChunkHeights(files), names[..i])
    {
      var height := ParseInt(names[i]);
      ParsedHeight(files, names[i]);
      ghost var before := chunks;
      if height.Some? {
        chunks := chunks + [Chunk(names[i], height.value)];
      }
      EarlierAreLess(names, i);
      ListOneMore(before, chunks, ChunkHeights(files), names[..i], names[i]);
    }
    assert names[..|names|] == names;
    AllListed(chunks, ChunkHeights(files), names, files.Keys);
  }

  // ---------------------------------------------------------------------------------------------
  // Opening the store, and whole runs

  /** The height of the last chunk in name order; `base` when there is no chunk. */
  ghost predicate IsLastChunk(heights: map<string, int>, base: nat, last: int) {
    if heights == map[] then last == base
    else exists name | name in heights :: IsGreatestName(heights, name) && heights[name] == last
  }

  ghost predicate IsGreatestName(heights: map<string, int>, name: string) {
    forall other | other in heights && other != name :: Less(other, name)
  }

  lemma LastChunkIsLastEnd(heights: map<string, int>, j: Shelf, last: int)
    requires NamedAfter(heights, j.ends) && Sound(j)
    requires IsLastChunk(heights, j.base, last)
    ensures last == j.LastEnd()
  {
    if j.ends != [] {
      assert Format12(j.ends[0]) in heights;
    }
    if heights != map[] {
      var name :| name in heights && IsGreatestName(heights, name) && heights[name] == last;
      assert IsChunkName(j.ends, name);
      var i :| 0 <= i < |j.ends| && name == Format12(j.ends[i]);
      var top := Format12(j.ends[|j.ends| - 1]);
      assert top in heights;
      GreatestIsLast(j, i);
    }
  }

  /** The chunk with the greatest name is the last one. */
  lemma GreatestIsLast(j: Shelf, i: nat)
    requires Sound(j) && i < |j.ends|
    requires Format12(j.LastEnd()) == Format12(j.ends[i]) || Less(Format12(j.LastEnd()), Format12(j.ends[i]))
    ensures j.ends[i] == j.LastEnd()
  {
    var h, top := j.ends[i], j.LastEnd();
    LessIsAsymmetric(Format12(h), Format12(top));
    LessIsAsymmetric(Format12(h), Format12(h));
    if h < top {
      DigitsSort(h, top, 12);
    }
  }

  /** One thing that happens to the store: the next block is dumped, or the program ends and the store is opened again. */
  datatype Step = Dump(block: Block, force: bool) | Reopen(closed: bool)

  function LeftBehind(s: State, closed: bool): Files
    requires s.isOpen ==> TMP in s.files
  {
    if closed then Closed(s).files else s.files
  }

  ghost predicate Next(s: State, step: Step, t: State, base: nat, perChunk: nat)
    requires perChunk > 0
    requires s.isOpen ==> TMP in s.files
  {
    match step
    case Dump(b, force) => t == Dumped(s, b, force, perChunk)
    case Reopen(closed) =>
      && t.files == Cleaned(LeftBehind(s, closed)) && !t.isOpen
      && IsLastChunk(ChunkHeights(t.files), base, t.lastFetched) && t.cursor == t.lastFetched + 1
  }

  /** A dump must be of the next height; cmd/blockstore/dump/dump.go:102-108 checks it. */
  predicate IsNextBlock(j: Shelf, step: Step) {
    step.Dump? ==> step.block.height == j.Top() + 1 < Pow10(12)
  }

  /** What is left on the shelf when the program ends: the finished chunks. */
  function Kept(j: Shelf): Shelf {
    if j.base <= j.LastEnd() <= j.Top() then j.(blocks := j.blocks[..j.LastEnd() - j.base]) else j
  }

  function Noted(j: Shelf, step: Step, perChunk: nat): Shelf
    requires perChunk > 0
  {
    match step
    case Dump(b, force) => Shelved(j, b, force, perChunk)
    case Reopen(_) => Kept(j)
  }

  lemma KeptIsSound(j: Shelf)
    requires Sound(j)
    ensures Sound(Kept(j)) && SameInChunks(j, Kept(j)) && Kept(j).LastEnd() == Kept(j).Top()
  {
    assert j.base <= j.LastEnd();
    var k := Kept(j);
    assert k.Part(k.base, k.LastEnd()) == j.Part(j.base, j.LastEnd());
  }

  /** Whatever the program left behind, opening the store finds the finished chunks and goes on after them. */
  lemma ReopeningKeepsInv(s: State, j: Shelf, closed: bool, t: State)
    requires Inv(s, j)
    requires t.files == Cleaned(LeftBehind(s, closed)) && !t.isOpen
    requires IsLastChunk(ChunkHeights(t.files), j.base, t.lastFetched)
    ensures t.lastFetched == j.LastEnd() && Inv(t, Kept(j))
  {
    var k := Kept(j);
    KeptIsSound(j);
    LeavingKeepsChunks(s, j, closed);
    ChunksSurvive(s.files, t.files, j, k);
    LastChunkIsLastEnd(ChunkHeights(t.files), k, t.lastFetched);
  }

  lemma LeavingKeepsChunks(s: State, j: Shelf, closed: bool)
    requires Inv(s, j)
    ensures SameChunks(s.files, Cleaned(LeftBehind(s, closed)))
  {
    if s.isOpen {
      ClosedNamesAreTemporary(s.cursor);
    }
  }

  lemma StepKeepsInv(s: State, step: Step, t: State, j: Shelf, perChunk: nat)
    requires perChunk > 0
    requires Inv(s, j) && IsNextBlock(j, step)
    requires Next(s, step, t, j.base, perChunk)
    ensures Inv(t, Noted(j, step, perChunk))
  {
    match step
    case Dump(b, force) => DumpKeepsInv(s, j, b, force, perChunk);
    case Reopen(closed) => ReopeningKeepsInv(s, j, closed, t);
  }

  function NotedAll(j: Shelf, steps: seq<Step>, perChunk: nat): Shelf
    requires perChunk > 0
    decreases |steps|
  {
    if steps == [] then j else NotedAll(Noted(j, steps[0], perChunk), steps[1..], perChunk)
  }

  ghost predicate IsRun(states: seq<State>, steps: seq<Step>, j: Shelf, perChunk: nat)
    requires perChunk > 0 && |states| == |steps| + 1
    decreases |steps|
  {
    steps != [] ==>
      && (states[0].isOpen ==> TMP in states[0].files)
      && IsNextBlock(j, steps[0])
      && Next(states[0], steps[0], states[1], j.base, perChunk)
      && IsRun(states[1..], steps[1..], Noted(j, steps[0], perChunk), perChunk)
  }

  /** In every run of dumps, closes, crashes and restarts the store stays sound. */
  lemma {:induction false} RunsKeepInv(states: seq<State>, steps: seq<Step>, j: Shelf, perChunk: nat)
    requires perChunk > 0 && |states| == |steps| + 1
    requires Inv(states[0], j)
    requires IsRun(states, steps, j, perChunk)
    ensures Inv(states[|steps|], NotedAll(j, steps, perChunk))
    decreases |steps|
  {
    if steps != [] {
      StepKeepsInv(states[0], steps[0], states[1], j, perChunk);
      RunsKeepInv(states[1..], steps[1..], Noted(j, steps[0], perChunk), perChunk);
    }
  }

  predicate IsMultiple(h: int, perChunk: nat)
    requires perChunk > 0
  {
    h % perChunk == 0
  }

  /** Every multiple of the chunk size dumped so far ends a chunk. */
  ghost predicate EndsAtMultiples(j: Shelf, perChunk: nat)
    requires perChunk > 0
  {
    forall h: nat | j.base < h <= j.Top() && IsMultiple(h, perChunk) :: h in j.ends
  }

  lemma FewAfterLastEnd(j: Shelf, perChunk: nat)
    requires perChunk > 0 && Sound(j) && EndsAtMultiples(j, perChunk)
    ensures 0 <= j.Top() - j.LastEnd() < perChunk
  {
    Multiples.MultipleWithin(j.LastEnd(), perChunk);
    var next := j.LastEnd() + perChunk - j.LastEnd() % perChunk;
    assert IsMultiple(next, perChunk);
    assert forall h | h in j.ends :: h <= j.LastEnd();
  }

  lemma StepEndsAtMultiples(j: Shelf, step: Step, perChunk: nat)
    requires perChunk > 0 && IsNextBlock(j, step) && EndsAtMultiples(j, perChunk)
    ensures EndsAtMultiples(Noted(j, step, perChunk), perChunk)
  {
  }

  lemma {:induction false} RunsEndAtMultiples(states: seq<State>, steps: seq<Step>, j: Shelf, perChunk: nat)
    requires perChunk > 0 && |states| == |steps| + 1
    requires IsRun(states, steps, j, perChunk) && EndsAtMultiples(j, perChunk)
    ensures EndsAtMultiples(NotedAll(j, steps, perChunk), perChunk)
    decreases |steps|
  {
    if steps != [] {
      StepEndsAtMultiples(j, steps[0], perChunk);
      RunsEndAtMultiples(states[1..], steps[1..], Noted(j, steps[0], perChunk), perChunk);
    }
  }

  /** In every run, fewer blocks than a chunk holds are dumped after the last chunk end, and so can be lost. */
  lemma FewBlocksAreLost(states: seq<State>, steps: seq<Step>, j: Shelf, perChunk: nat)
    requires perChunk > 0 && |states| == |steps| + 1
    requires Inv(states[0], j) && EndsAtMultiples(j, perChunk)
    requires IsRun(states, steps, j, perChunk)
    ensures var k := NotedAll(j, steps, perChunk); 0 <= k.Top() - k.LastEnd() < perChunk
  {
    var k := NotedAll(j, steps, perChunk);
    RunsKeepInv(states, steps, j, perChunk);
    RunsEndAtMultiples(states, steps, j, perChunk);
    FewAfterLastEnd(k, perChunk);
  }

  // ---------------------------------------------------------------------------------------------
  // Finding a chunk

  /** Sorting by name sorts by height; with twelve-digit names it does (NamesSortIff). */
  ghost predicate NamesAreHeights(heights: map<string, int>) {
    forall a, b | a in heights && b in heights :: Less(a, b) ==> heights[a] < heights[b]
  }

  lemma ChunkNamesSort(heights: map<string, int>, j: Shelf)
    requires NamedAfter(heights, j.ends) && Sound(j)
    ensures NamesAreHeights(heights)
  {
    forall a, b | a in heights && b in heights && Less(a, b)
      ensures heights[a] < heights[b]
    {
      assert IsChunkName(j.ends, a) && IsChunkName(j.ends, b);
      var i :| 0 <= i < |j.ends| && a == Format12(j.ends[i]);
      var k :| 0 <= k < |j.ends| && b == Format12(j.ends[k]);
      if j.ends[k] < j.ends[i] {
        DigitsSort(j.ends[k], j.ends[i], 12);
        LessIsAsymmetric(a, b);
      } else if j.ends[i] == j.ends[k] {
        LessIsAsymmetric(a, a);
      }
    }
  }

  datatype Found = NoChunks | PastEnd | At(chunk: Chunk)

  /** `c` reaches `h`, and every chunk that does so ends no earlier. */
  ghost predicate IsFirstReaching(heights: map<string, int>, h: int, c: Chunk) {
    && c.name in heights && heights[c.name] == c.height && h <= c.height
    && forall name | name in heights :: heights[name] < h || c.height <= heights[name]
  }

  ghost predicate AllEndBefore(heights: map<string, int>, h: int) {
    forall name | name in heights :: heights[name] < h
  }

  ghost predicate IsFound(heights: map<string, int>, h: int, f: Found) {
    match f
    case NoChunks => heights == map[]
    case PastEnd => AllEndBefore(heights, h) && heights != map[]
    case At(c) => IsFirstReaching(heights, h, c)
  }

  /** `p` and `q` are neighbours in the order of names. */
  ghost predicate IsJustBefore(heights: map<string, int>, p: string, q: string) {
    Less(p, q) && forall o | o in heights :: o == p || o == q || Less(o, p) || Less(q, o)
  }

  /** In any folder: a chunk that reaches `h` and whose neighbour before it does not, or the greatest name ends before `h`. */
  ghost predicate IsFoundByName(heights: map<string, int>, h: int, f: Found) {
    match f
    case NoChunks => heights == map[]
    case PastEnd => exists name | name in heights :: IsGreatestName(heights, name) && heights[name] < h
    case At(c) =>
      && c.name in heights && heights[c.name] == c.height && h <= c.height
      && forall p | p in heights && IsJustBefore(heights, p, c.name) :: heights[p] < h
  }

  lemma NeighbourIsPrevious(chunks: seq<Chunk>, heights: map<string, int>, p: string, lo: nat)
    requires IsChunkList(chunks, heights) && lo < |chunks| && p in heights && IsJustBefore(heights, p, chunks[lo].name)
    ensures lo > 0 && chunks[lo - 1] == Chunk(p, heights[p])
  {
    var i :| 0 <= i < |chunks| && chunks[i] == Chunk(p, heights[p]);
    LessIsAsymmetric(p, chunks[lo].name);
    if i < lo - 1 {
      var o := chunks[lo - 1].name;
      LessIsAsymmetric(p, o);
      LessIsAsymmetric(o, chunks[lo].name);
    }
  }

  lemma ListedHeightsIncrease(chunks: seq<Chunk>, heights: map<string, int>)
    requires NamesAreHeights(heights) && IsChunkList(chunks, heights)
    ensures HeightsIncrease(chunks)
  {
    forall i, j | 0 <= i < j < |chunks|
      ensures chunks[i].height < chunks[j].height
    {
      assert Less(chunks[i].name, chunks[j].name);
    }
  }

  /** All chunks before position `k` end before `h`, and none from there on does. */
  lemma SplitIsFound(chunks: seq<Chunk>, heights: map<string, int>, h: int, k: nat)
    requires NamesAreHeights(heights) && IsChunkList(chunks, heights) && k <= |chunks|
    requires forall i | 0 <= i < k :: chunks[i].height < h
    requires k < |chunks| ==> h <= chunks[k].height
    ensures k < |chunks| ==> IsFirstReaching(heights, h, chunks[k])
    ensures k == |chunks| ==> AllEndBefore(heights, h)
  {
    ListedHeightsIncrease(chunks, heights);
    forall name | name in heights
      ensures heights[name] < h || (k < |chunks| && chunks[k].height <= heights[name])
    {
      var i :| 0 <= i < |chunks| && chunks[i] == Chunk(name, heights[name]);
    }
  }

  lemma NoChunkListed(chunks: seq<Chunk>, heights: map<string, int>)
    requires IsChunkList(chunks, heights)
    ensures chunks == [] <==> heights == map[]
  {
    if chunks != [] {
      assert chunks[0].name in heights;
    }
    if heights != map[] {
      var name :| name in heights;
      assert Chunk(name, heights[name]) in chunks;
    }
  }

  lemma LastListedIsGreatest(chunks: seq<Chunk>, heights: map<string, int>)
    requires IsChunkList(chunks, heights) && chunks != []
    ensures IsGreatestName(heights, chunks[|chunks| - 1].name)
  {
    forall other | other in heights && other != chunks[|chunks| - 1].name
      ensures Less(other, chunks[|chunks| - 1].name)
    {
      var i :| 0 <= i < |chunks| && chunks[i] == Chunk(other, heights[other]);
    }
  }

  predicate HeightsIncrease(chunks: seq<Chunk>) {
    forall i, j | 0 <= i < j < |chunks| :: chunks[i].height < chunks[j].height
  }

  /** A chunk that reaches the height after one that does not; the first that does, when the heights increase. */
  method SearchChunks(chunks: seq<Chunk>, h: int) returns (lo: nat)
    requires |chunks| > 0 && h <= chunks[|chunks| - 1].height
    ensures lo < |chunks| && h <= chunks[lo].height
    ensures lo > 0 ==> chunks[lo - 1].height < h
    ensures HeightsIncrease(chunks) ==> forall i | 0 <= i < lo :: chunks[i].height < h
  {
    lo := 0;
    var hi := |chunks| - 1;
    while lo < hi
      invariant 0 <= lo <= hi < |chunks|
      invariant lo > 0 ==> chunks[lo - 1].height < h
      invariant h <= chunks[hi].height
    {
      var mid := lo + (hi - lo) / 2;
      if chunks[mid].height < h {
        lo := mid + 1;
      } else {
        hi := mid;
      }
    }
  }

  method FindAmong(chunks: seq<Chunk>, ghost heights: map<string, int>, h: int) returns (f: Found)
    requires IsChunkList(chunks, heights)
    ensures IsFoundByName(heights, h, f)
    ensures NamesAreHeights(heights) ==> IsFound(heights, h, f)
  {
    NoChunkListed(chunks, heights);
    if |chunks| == 0 {
      return NoChunks;
    }
    if NamesAreHeights(heights) {
      ListedHeightsIncrease(chunks, heights);
    }
    LastListedIsGreatest(chunks, heights);
    if chunks[|chunks| - 1].height < h {
      if NamesAreHeights(heights) {
        SplitIsFound(chunks, heights, h, |chunks|);
      }
      return PastEnd;
    }
    var lo := SearchChunks(chunks, h);
    if NamesAreHeights(heights) {
      SplitIsFound(chunks, heights, h, lo);
    }
    forall p | p in heights && IsJustBefore(heights, p, chunks[lo].name)
      ensures heights[p] < h
    {
      NeighbourIsPrevious(chunks, heights, p, lo);
    }
    f := At(chunks[lo]);
  }

  /** findChunkPathForHeight */
  method FindChunkForHeight(files: Files, h: int) returns (f: Found)
    ensures IsFoundByName(ChunkHeights(files), h, f)
    ensures NamesAreHeights(ChunkHeights(files)) ==> IsFound(ChunkHeights(files), h, f)
  {
    var chunks := LocalChunks(files);
    f := FindAmong(chunks, ChunkHeights(files), h);
  }

  /** In a sound store the chunk found is the one whose heights include `h`. */
  lemma FoundChunkHoldsHeight(heights: map<string, int>, j: Shelf, h: nat, f: Found) returns (i: nat)
    requires NamedAfter(heights, j.ends) && Sound(j)
    requires IsFound(heights, h, f)
    ensures f.NoChunks? <==> j.ends == []
    ensures f.PastEnd? <==> j.ends != [] && j.LastEnd() < h
    ensures f.At? ==> i < |j.ends| && f.chunk == Chunk(Format12(j.ends[i]), j.ends[i])
    ensures f.At? ==> h <= j.ends[i] && (j.base < h ==> j.StartOf(i) < h)
  {
    i := 0;
    if j.ends != [] {
      assert Format12(j.ends[|j.ends| - 1]) in heights;
    }
    if f.At? {
      assert IsChunkName(j.ends, f.chunk.name);
      i :| 0 <= i < |j.ends| && f.chunk.name == Format12(j.ends[i]);
      if i > 0 {
        assert Format12(j.ends[i - 1]) in heights;
      }
    } else if f.PastEnd? {
      var name :| name in heights;
      assert IsChunkName(j.ends, name);
    }
  }

  // ---------------------------------------------------------------------------------------------
  // The store object

  /** The folder when the first names are cleaned up. */
  function CleanedOf(files: Files, names: seq<string>): Files {
    map name | name in files && !(name in names && IsTemporaryChunk(name)) :: files[name]
  }

  lemma CleanOneMore(files: Files, names: seq<string>, i: nat)
    requires i < |names|
    ensures CleanedOf(files, names[..i + 1]) ==
            if IsTemporaryChunk(names[i]) then CleanedOf(files, names[..i]) - {names[i]} else CleanedOf(files, names[..i])
  {
    assert names[..i + 1] == names[..i] + [names[i]];
  }

  lemma AllCleaned(files: Files, names: seq<string>)
    requires forall name | name in files :: name in names
    ensures CleanedOf(files, names[..|names|]) == Cleaned(files)
  {
    assert names[..|names|] == names;
  }

  class BlockStore {
    const perChunk: nat
    var files: Files
    var isOpen: bool
    var cursor: int
    var lastFetched: int

    ghost function Snapshot(): State
      reads this
    {
      State(files, isOpen, cursor, lastFetched)
    }

    /** Opens the store over the folder a former run left; `base` is the height a store without chunks starts from. */
    constructor (folder: Files, perChunk: nat, base: nat)
      requires perChunk > 0
      ensures this.perChunk == perChunk
      ensures files == Cleaned(folder) && !isOpen
      ensures IsLastChunk(ChunkHeights(files), base, lastFetched) && cursor == lastFetched + 1
    {
      this.perChunk := perChunk;
      files, isOpen, cursor, lastFetched := folder, false, 0, 0;
      new;
      CleanUp();
      lastFetched := FindLastFetchedHeight(base);
      cursor := lastFetched + 1;
    }

    method CleanUp()
      modifies this
      ensures files == Cleaned(old(files)) && !isOpen && lastFetched == old(lastFetched) && cursor == old(cursor)
    {
      var names := ReadDir(files);
      for i := 0 to |names|
        invariant files == CleanedOf(old(files), names[..i])
        invariant unchanged(`isOpen) && unchanged(`lastFetched) && unchanged(`cursor)
      {
        CleanOneMore(old(files), names, i);
        if IsTemporaryChunk(names[i]) {
          files := files - {names[i]};
        }
      }
      AllCleaned(old(files), names);
      isOpen := false;
    }

    method FindLastFetchedHeight(base: nat) returns (last: int)
      ensures IsLastChunk(ChunkHeights(files), base, last)
    {
      var chunks := LocalChunks(files);
      NoChunkListed(chunks, ChunkHeights(files));
      if |chunks| == 0 {
        return base;
      }
      LastListedIsGreatest(chunks, ChunkHeights(files));
      last := chunks[|chunks| - 1].height;
    }

    method StartNewFile()
      modifies this
      ensures Snapshot() == old(Snapshot()).(files := old(files)[TMP := []], isOpen := true)
    {
      files := files[TMP := []];
      isOpen := true;
    }

    method FinalizeChunk(name: string)
      requires isOpen ==> TMP in files
      requires name != TMP
      modifies this
      ensures Snapshot() == Finalized(old(Snapshot()), name)
    {
      if !isOpen {
        return;
      }
      if name in files {
        files := files - {name};
      }
      files := (files - {TMP})[name := files[TMP]];
      isOpen := false;
    }

    method AppendBlock(block: Block)
      requires isOpen ==> TMP in files
      modifies this
      ensures Snapshot() == Appended(old(Snapshot()), block)
      ensures isOpen && files == old(files)[TMP := (if old(isOpen) then old(files)[TMP] else []) + [LineOf(block)]]
    {
      if !isOpen {
        StartNewFile();
      }
      files := files[TMP := files[TMP] + [LineOf(block)]];
      cursor := block.height;
    }

    method DumpBlock(block: Block, forceFinalizeChunk: bool)
      requires perChunk > 0
      requires isOpen ==> TMP in files
      modifies this
      ensures Snapshot() == Dumped(old(Snapshot()), block, forceFinalizeChunk, perChunk)
      ensures var lines := (if old(isOpen) then old(files)[TMP] else []) + [LineOf(block)];
              if forceFinalizeChunk || block.height % perChunk == 0
              then !isOpen && files == (old(files) - {TMP})[Format12(block.height) := lines]
              else isOpen && files == old(files)[TMP := lines]
    {
      AppendBlock(block);
      if block.height % perChunk == 0 || forceFinalizeChunk {
        ChunkNameIsNotTmp(block.height, "");
        FinalizeChunk(Format12(cursor));
      }
    }

    method Close()
      requires isOpen ==> TMP in files
      modifies this
      ensures Snapshot() == Closed(old(Snapshot()))
    {
      ChunkNameIsNotTmp(cursor, ".tmp");
      FinalizeChunk(ChunkName(cursor) + ".tmp");
    }
  }

  lemma ChunkNameIsNotTmp(height: int, ext: string)
    ensures ChunkName(height) + ext != TMP
  {
    var name := ChunkName(height) + ext;
    if height >= 0 {
      assert IsDigit(Format12(height)[0]) && name[0] == Format12(height)[0];
    } else {
      assert name[0] == '-';
    }
    assert TMP[0] == 't';
  }

  // ---------------------------------------------------------------------------------------------
  // Reading

  datatype Answer = Got(block: Block) | End | Error

  /** An open chunk: the height in its name and the lines not read yet. */
  datatype Reader = NoReader | Reader(height: int, rest: seq<Line>)

  /** What a sound store answers for a height. */
  function Stored(j: Shelf, h: nat): (r: Answer)
    requires j.LastEnd() <= j.Top()
  {
    if j.ends == [] then Error
    else if j.LastEnd() < h then End
    else if h <= j.base then Error
    else Got(j.blocks[h - j.base - 1])
  }

  ghost predicate HasHeights(blocks: seq<Block>, first: nat) {
    first + |blocks| <= Pow10(12) && forall i | 0 <= i < |blocks| :: blocks[i].height == first + i
  }

  /** The lines left in the chunk are `rest`, from height `first` on; the next height is among them if stored. */
  ghost predicate Covers(reader: Reader, next: nat, j: Shelf, first: nat, rest: seq<Block>)
    requires Sound(j)
  {
    && reader.Reader?
    && reader.height in j.ends && next <= reader.height
    && reader.rest == Lines(rest)
    && HasHeights(rest, first)
    && (if j.base < next then
          j.base < first <= next && rest == j.Part(first - 1, reader.height)
        else next < first || rest == [])
  }

  /** The lines left in an open chunk begin with the next height's. */
  ghost predicate IsPositioned(reader: Reader, next: nat, j: Shelf)
    requires Sound(j)
  {
    reader.Reader? ==>
      && reader.height in j.ends
      && reader.rest == if j.base < next <= reader.height then Lines(j.Part(next - 1, reader.height)) else []
  }

  lemma WholeChunkCovers(reader: Reader, next: nat, j: Shelf, i: nat)
    requires Sound(j) && i < |j.ends|
    requires next <= j.ends[i] && (j.base < next ==> j.StartOf(i) < next)
    requires reader == Reader(j.ends[i], Lines(j.Part(j.StartOf(i), j.ends[i])))
    ensures Covers(reader, next, j, j.StartOf(i) + 1, j.Part(j.StartOf(i), j.ends[i]))
  {
  }

  lemma FoundChunkCovers(files: Files, j: Shelf, next: nat, f: Found) returns (first: nat, rest: seq<Block>)
    requires Chunked(files, j) && IsFound(ChunkHeights(files), next, f)
    ensures f.NoChunks? <==> j.ends == []
    ensures f.PastEnd? <==> j.ends != [] && j.LastEnd() < next
    ensures f.At? ==> f.chunk.name in files && Covers(Reader(f.chunk.height, files[f.chunk.name]), next, j, first, rest)
  {
    first, rest := 0, [];
    var i := FoundChunkHoldsHeight(ChunkHeights(files), j, next, f);
    if f.At? {
      assert HasChunk(files, j, i);
      first, rest := j.StartOf(i) + 1, j.Part(j.StartOf(i), j.ends[i]);
      WholeChunkCovers(Reader(f.chunk.height, files[f.chunk.name]), next, j, i);
    }
  }

  lemma LinesLeft(reader: Reader, next: nat, j: Shelf) returns (first: nat, rest: seq<Block>)
    requires Sound(j) && IsPositioned(reader, next, j)
    requires reader.Reader? && next <= reader.height
    ensures Covers(reader, next, j, first, rest)
  {
    first, rest := 0, [];
    if j.base < next {
      first, rest := next, j.Part(next - 1, reader.height);
    }
  }

  lemma AnswerIsStored(reader: Reader, next: nat, j: Shelf, first: nat, rest: seq<Block>, r: Answer)
    requires Sound(j) && Covers(reader, next, j, first, rest)
    requires r == if first <= next < first + |rest| then Got(rest[next - first]) else Error
    ensures r == Stored(j, next)
  {
    var i :| 0 <= i < |j.ends| && j.ends[i] == reader.height;
    assert j.ends[i] <= j.LastEnd();
  }

  lemma StaysPositioned(reader: Reader, next: nat, j: Shelf, first: nat, rest: seq<Block>, after: Reader, newNext: nat)
    requires Sound(j) && Covers(reader, next, j, first, rest)
    requires after.Reader? && after.height == reader.height
    requires if first <= next < first + |rest| then
        newNext == next + 1 && after.rest == Lines(rest[newNext - first..])
      else newNext == next && after.rest == []
    ensures IsPositioned(after, newNext, j)
  {
    if first <= next < first + |rest| && j.base < next {
      assert rest[next + 1 - first..] == j.Part(next, reader.height);
    }
  }

  /** The line after `k` others is that of block `k`, and shows whether the height is the block's. */
  lemma NextLine(blocks: seq<Block>, first: nat, k: nat, height: nat)
    requires k < |blocks| && HasHeights(blocks, first)
    ensures var lines := Lines(blocks[k..]);
            && |lines| > 0 && lines[1..] == Lines(blocks[k + 1..])
            && lines[0].block == blocks[k]
            && (MatchesHeight(lines[0], height) <==> first + k == height)
  {
    MatchIsByHeight(blocks[k], height);
  }

  class Iterator {
    const store: BlockStore?
    var reader: Reader
    var nextHeight: nat

    constructor (store: BlockStore?, startHeight: nat)
      ensures this.store == store && reader == NoReader && nextHeight == startHeight
    {
      this.store, reader, nextHeight := store, NoReader, startHeight;
    }

    /** One step of reading: the block of the next height if a chunk has it, and the iterator moves on only then. */
    method Next(ghost j: Shelf) returns (r: Answer)
      requires store != null ==> Chunked(store.files, j) && IsPositioned(reader, nextHeight, j)
      modifies this
      ensures store == null ==> r == End
      ensures store != null ==> r == Stored(j, old(nextHeight)) && IsPositioned(reader, nextHeight, j)
      ensures nextHeight == if r.Got? then old(nextHeight) + 1 else old(nextHeight)
    {
      if store == null {
        return End;
      }
      ghost var first, rest;
      if IsNextChunkReached() {
        reader := NoReader;
        var f;
        f, first, rest := OpenNextChunk(j);
        if f.PastEnd? {
          return End;
        }
        if f.NoChunks? {
          return Error;
        }
      } else {
        first, rest := LinesLeft(reader, nextHeight, j);
      }
      r := ReadOn(j, first, rest);
    }

    predicate IsNextChunkReached()
      reads this
    {
      reader.NoReader? || reader.height < nextHeight
    }

    method OpenNextChunk(ghost j: Shelf) returns (f: Found, ghost first: nat, ghost rest: seq<Block>)
      requires store != null && Chunked(store.files, j)
      modifies this
      ensures nextHeight == old(nextHeight)
      ensures f.NoChunks? <==> j.ends == []
      ensures f.PastEnd? <==> j.ends != [] && j.LastEnd() < nextHeight
      ensures if f.At? then Covers(reader, nextHeight, j, first, rest) else reader == old(reader)
    {
      var files := store.files;
      ChunkNamesSort(ChunkHeights(files), j);
      f := FindChunkForHeight(files, nextHeight);
      first, rest := FoundChunkCovers(files, j, nextHeight, f);
      if f.At? {
        reader := Reader(f.chunk.height, files[f.chunk.name]);
      }
    }

    method ReadOn(ghost j: Shelf, ghost first: nat, ghost rest: seq<Block>) returns (r: Answer)
      requires Sound(j) && Covers(reader, nextHeight, j, first, rest)
      modifies this
      ensures r == Stored(j, old(nextHeight))
      ensures IsPositioned(reader, nextHeight, j)
      ensures nextHeight == if r.Got? then old(nextHeight) + 1 else old(nextHeight)
    {
      ghost var before, next := reader, nextHeight;
      r := UnmarshalNextBlock(first, rest);
      AnswerIsStored(before, next, j, first, rest, r);
      StaysPositioned(before, next, j, first, rest, reader, nextHeight);
    }

    /** Skips lines until the one with the next height. */
    method UnmarshalNextBlock(ghost first: nat, ghost blocks: seq<Block>) returns (r: Answer)
      requires reader.Reader? && reader.rest == Lines(blocks)
      requires HasHeights(blocks, first)
      modifies this
      ensures reader.Reader? && reader.height == old(reader.height)
      ensures r == if first <= old(nextHeight) < first + |blocks| then Got(blocks[old(nextHeight) - first]) else Error
      ensures if first <= old(nextHeight) < first + |blocks| then
          nextHeight == old(nextHeight) + 1 && reader.rest == Lines(blocks[nextHeight - first..])
        else nextHeight == old(nextHeight) && reader.rest == []
    {
      ghost var k := 0;
      while reader.rest != []
        invariant 0 <= k <= |blocks|
        invariant reader.Reader? && reader.height == old(reader.height) && nextHeight == old(nextHeight)
        invariant reader.rest == Lines(blocks[k..])
        invariant first <= nextHeight < first + |blocks| ==> first + k <= nextHeight
        decreases |blocks| - k
      {
        var line := reader.rest[0];
        NextLine(blocks, first, k, nextHeight);
        reader := reader.(rest := reader.rest[1..]);
        k := k + 1;
        if MatchesHeight(line, nextHeight) {
          nextHeight := nextHeight + 1;
          return Got(line.block);
        }
      }
      r := Error;
    }
  }

  ghost predicate IsReadUpTo(j: Shelf, start: nat, read: nat, blocks: seq<Block>)
    requires Sound(j) && j.base < start
  {
    && start <= read + 1
    && if read < start then blocks == [] else read <= j.LastEnd() && blocks == j.Part(start - 1, read)
  }

  lemma ReadOneMore(j: Shelf, start: nat, read: nat, blocks: seq<Block>, answer: Answer)
    requires Sound(j) && j.base < start && IsReadUpTo(j, start, read, blocks)
    requires answer == Stored(j, read + 1)
    ensures answer.Got? ==> read < j.LastEnd() && IsReadUpTo(j, start, read + 1, blocks + [answer.block])
    ensures !answer.Got? ==> answer == if j.ends == [] then Error else End
    ensures !answer.Got? ==> blocks == if start <= j.LastEnd() then j.Part(start - 1, j.LastEnd()) else []
  {
  }

  /** A reader's loop: Next until it answers no block (cmd/blockstore/fragment/fragment.go:48-73). */
  method ReadFrom(store: BlockStore, start: nat, ghost j: Shelf) returns (blocks: seq<Block>, last: Answer)
    requires Chunked(store.files, j) && j.base < start
    ensures blocks == if start <= j.LastEnd() then j.Part(start - 1, j.LastEnd()) else []
    ensures last == if j.ends == [] then Error else End
  {
    var it := new Iterator(store, start);
    blocks, last := [], End;
    ghost var read := start - 1;
    while true
      invariant fresh(it) && it.store == store && IsPositioned(it.reader, it.nextHeight, j)
      invariant it.nextHeight == read + 1
      invariant IsReadUpTo(j, start, read, blocks)
      decreases j.LastEnd() - read
    {
      last := it.Next(j);
      ReadOneMore(j, start, read, blocks, last);
      if !last.Got? {
        return;
      }
      blocks, read := blocks + [last.block], read + 1;
    }
  }

  /** A folder without chunks is a sound store of nothing. */
  lemma EmptyFolderIsSound(folder: Files, base: nat, last: int)
    requires base < Pow10(12) && ChunkHeights(folder) == map[]
    requires IsLastChunk(ChunkHeights(Cleaned(folder)), base, last)
    ensures last == base
    ensures Inv(State(Cleaned(folder), false, last + 1, last), Shelf([], [], base))
  {
    SameHeights(folder, Cleaned(folder));
  }
}
