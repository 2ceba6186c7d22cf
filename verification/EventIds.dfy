/**
  Event ids: their encoding as integers (internal/db/eventid.go) and how they are handled
  (internal/fetch/record/mux.go, `ProcessBlock` and `processTx`).
 */
module EventIds {

  datatype Location = FinalizedBlockEvents | TxsResults

  datatype EventId = EventId(height: int, location: Location, txIndex: int, eventIndex: int)

  const BLOCK_HEIGHT_SCALE: int := 10000000000
  const TYPE_DIGIT: int := 1000000000
  const TX_INDEX_SCALE: int := 10000
  const END_BLOCK_PSEUDO_TX: int := 999999

  function AsBigint(e: EventId): int {
    match e.location
    case FinalizedBlockEvents =>
      e.height * BLOCK_HEIGHT_SCALE + (if e.txIndex == END_BLOCK_PSEUDO_TX then 9 * TYPE_DIGIT else 0) + e.eventIndex
    case TxsResults =>
      e.height * BLOCK_HEIGHT_SCALE + TYPE_DIGIT + e.txIndex * TX_INDEX_SCALE + e.eventIndex
  }

  /** Division as Go does it, towards zero. */
  function Quotient(a: int, b: int): int
    requires b > 0
  {
    if a >= 0 then a / b else -(-a / b)
  }

  function Remainder(a: int, b: int): int
    requires b > 0
  {
    a - b * Quotient(a, b)
  }

  function ParseEventId(id: int): EventId {
    var height := Quotient(id, BLOCK_HEIGHT_SCALE);
    var rest := Remainder(id, BLOCK_HEIGHT_SCALE);
    if rest < TYPE_DIGIT then
      EventId(height, FinalizedBlockEvents, 0, Remainder(rest, TYPE_DIGIT))
    else if rest < 9 * TYPE_DIGIT then
      EventId(height, TxsResults, Quotient(rest - TYPE_DIGIT, TX_INDEX_SCALE), Remainder(rest, TX_INDEX_SCALE))
    else
      EventId(height, FinalizedBlockEvents, END_BLOCK_PSEUDO_TX, Remainder(rest, TYPE_DIGIT))
  }

  function HeightFromEventId(id: int): int { Quotient(id, BLOCK_HEIGHT_SCALE) }

  // ---------------------------------------------------------------------------------------------
  // Round trips

  lemma MultipleIsFar(b: int, d: int)
    requires b > 0
    ensures d >= 1 ==> b * d >= b
    ensures d <= -1 ==> b * d <= -b
  {
  }

  lemma QuotientIs(a: int, b: int, q: int, r: int)
    requires b > 0 && 0 <= r < b && 0 <= a && a == q * b + r
    ensures Quotient(a, b) == q && Remainder(a, b) == r
  {
    var d := a / b - q;
    assert a == b * (a / b) + a % b;
    assert b * d == b * (a / b) - b * q;
    MultipleIsFar(b, d);
  }

  lemma SplitNegative(a: int, b: int)
    requires a < 0 < b
    ensures -b < Remainder(a, b) <= 0 && Quotient(a, b) <= 0
  {
  }

  /** Parsing and encoding again gives the number back, for all numbers but some negative ones. */
  lemma EncodeParsedIff(id: int)
    ensures AsBigint(ParseEventId(id)) == id <==> id >= 0 || -TYPE_DIGIT < Remainder(id, BLOCK_HEIGHT_SCALE)
  {
    var rest := Remainder(id, BLOCK_HEIGHT_SCALE);
    if id < 0 {
      SplitNegative(id, BLOCK_HEIGHT_SCALE);
      if rest < 0 {
        SplitNegative(rest, TYPE_DIGIT);
      }
    }
  }

  /** The ids that the encoding has room for. */
  predicate IsValid(e: EventId) {
    && e.height >= 0 && e.eventIndex >= 0
    && match e.location
       case FinalizedBlockEvents => (e.txIndex == 0 || e.txIndex == 999_999) && e.eventIndex < 1_000_000_000
       case TxsResults => 0 <= e.txIndex < 800_000 && e.eventIndex < 10_000
  }

  /** An id without negative parts survives encoding and parsing exactly when the encoding has room for it. */
  lemma ParseEncodedIff(e: EventId)
    requires e.height >= 0 && e.txIndex >= 0 && e.eventIndex >= 0
    ensures ParseEventId(AsBigint(e)) == e <==> IsValid(e)
    ensures IsValid(e) ==> HeightFromEventId(AsBigint(e)) == e.height
  {
    var id := AsBigint(e);
    if IsValid(e) {
      var rest := id - e.height * BLOCK_HEIGHT_SCALE;
      QuotientIs(id, BLOCK_HEIGHT_SCALE, e.height, rest);
      if e.location.TxsResults? {
        QuotientIs(rest - TYPE_DIGIT, TX_INDEX_SCALE, e.txIndex, e.eventIndex);
        QuotientIs(rest, TX_INDEX_SCALE, e.txIndex + 100000, e.eventIndex);
      } else if e.txIndex == 0 {
        QuotientIs(rest, TYPE_DIGIT, 0, e.eventIndex);
      } else {
        QuotientIs(rest, TYPE_DIGIT, 9, e.eventIndex);
      }
    } else {
      ParsedIsValid(id);
    }
  }

  lemma ParsedIsValid(id: int)
    requires id >= 0
    ensures IsValid(ParseEventId(id))
  {
  }

  // ---------------------------------------------------------------------------------------------
  // Order

  /** The part of a block an event is in: before the transactions, in them, or (formerly) after them. */
  function Part(e: EventId): int {
    if e.location.TxsResults? then 1 else if e.txIndex == END_BLOCK_PSEUDO_TX then 2 else 0
  }

  predicate Before(e: EventId, f: EventId) {
    e.height < f.height || (e.height == f.height &&
      (Part(e) < Part(f) || (Part(e) == Part(f) &&
        (e.txIndex < f.txIndex || (e.txIndex == f.txIndex && e.eventIndex < f.eventIndex)))))
  }

  /** Numbers compare as ids do: by height, part, transaction and event. */
  lemma OrderIff(e: EventId, f: EventId)
    requires IsValid(e) && IsValid(f)
    ensures AsBigint(e) < AsBigint(f) <==> Before(e, f)
  {
  }

  // ---------------------------------------------------------------------------------------------
  // Assignment

  /** A block by the number of its finalize events, and of the events of each transaction. */
  datatype Block = Block(height: int, finalizeEvents: nat, txs: seq<nat>)

  function FinalizeIds(height: int, n: nat): seq<EventId> {
    seq(n, i => EventId(height, FinalizedBlockEvents, 0, i + 1))
  }

  function TxIds(height: int, tx: int, n: nat): seq<EventId> {
    seq(n, i => EventId(height, TxsResults, tx, i + 1))
  }

  function AllTxIds(height: int, txs: seq<nat>): seq<EventId> {
    if txs == [] then [] else AllTxIds(height, txs[..|txs| - 1]) + TxIds(height, |txs|, txs[|txs| - 1])
  }

  function IdsOf(b: Block): seq<EventId> {
    FinalizeIds(b.height, b.finalizeEvents) + AllTxIds(b.height, b.txs)
  }

  /** The counters that ProcessBlock moves on; `handled` lists the ids the events were handled with. */
  class Metadata {
    var eventId: EventId
    var handled: seq<EventId>

    constructor (height: int)
      ensures eventId == EventId(height, FinalizedBlockEvents, 0, 0) && handled == []
    {
      eventId, handled := EventId(height, FinalizedBlockEvents, 0, 0), [];
    }

    method ProcessEvent()
      modifies this`handled
      ensures handled == old(handled) + [eventId]
    {
      handled := handled + [eventId];
    }

    method ProcessTx(events: nat)
      requires eventId.location.TxsResults? && eventId.eventIndex == 1
      modifies this
      ensures handled == old(handled) + TxIds(eventId.height, eventId.txIndex, events)
      ensures eventId == old(eventId).(eventIndex := events + 1)
    {
      for i := 0 to events
        invariant handled == old(handled) + TxIds(eventId.height, eventId.txIndex, i)
        invariant eventId == old(eventId).(eventIndex := i + 1)
      {
        ProcessEvent();
        eventId := eventId.(eventIndex := eventId.eventIndex + 1);
      }
    }

    method ProcessFinalizeEvents(events: nat)
      requires eventId.txIndex == 0 && handled == []
      modifies this
      ensures handled == FinalizeIds(eventId.height, events)
      ensures eventId.height == old(eventId.height)
    {
      eventId := eventId.(location := FinalizedBlockEvents, eventIndex := 1);
      for i := 0 to events
        invariant handled == FinalizeIds(eventId.height, i)
        invariant eventId == EventId(old(eventId.height), FinalizedBlockEvents, 0, i + 1)
      {
        ProcessEvent();
        eventId := eventId.(eventIndex := eventId.eventIndex + 1);
      }
    }
  }

  /** ProcessBlock */
  method ProcessBlock(b: Block) returns (ids: seq<EventId>)
    ensures ids == IdsOf(b)
  {
    var m := new Metadata(b.height);
    m.ProcessFinalizeEvents(b.finalizeEvents);
    m.eventId := m.eventId.(location := TxsResults, txIndex := 1);
    for i := 0 to |b.txs|
      invariant m.eventId.height == b.height && m.eventId.location == TxsResults && m.eventId.txIndex == i + 1
      invariant m.handled == FinalizeIds(b.height, b.finalizeEvents) + AllTxIds(b.height, b.txs[..i])
    {
      m.eventId := m.eventId.(eventIndex := 1);
      m.ProcessTx(b.txs[i]);
      m.eventId := m.eventId.(txIndex := m.eventId.txIndex + 1);
      assert b.txs[..i + 1][..i] == b.txs[..i];
    }
    assert b.txs[..|b.txs|] == b.txs;
    ids := m.handled;
  }

  /** The sizes that the encoding's documentation allows for. */
  predicate IsAllowed(b: Block) {
    && b.finalizeEvents <= 1_000_000_000 && |b.txs| <= 800_000
    && forall i | 0 <= i < |b.txs| :: b.txs[i] <= 10_000
  }

  /** Encoded, the ids increase strictly and are in (least, most]. */
  ghost predicate Increase(ids: seq<EventId>, least: int, most: int) {
    && (forall i | 0 <= i < |ids| :: least < AsBigint(ids[i]) <= most)
    && forall i, j | 0 <= i < j < |ids| :: AsBigint(ids[i]) < AsBigint(ids[j])
  }

  lemma IncreaseConcat(a: seq<EventId>, b: seq<EventId>, least: int, middle: int, most: int)
    requires Increase(a, least, middle) && Increase(b, middle, most) && least <= middle <= most
    ensures Increase(a + b, least, most)
  {
  }

  lemma {:induction false} TxIdsIncrease(height: int, txs: seq<nat>)
    requires forall i | 0 <= i < |txs| :: txs[i] <= TX_INDEX_SCALE
    ensures var start := height * BLOCK_HEIGHT_SCALE + TYPE_DIGIT;
            Increase(AllTxIds(height, txs), start, start + (|txs| + 1) * TX_INDEX_SCALE)
  {
    if txs != [] {
      var n := |txs| - 1;
      TxIdsIncrease(height, txs[..n]);
      var start := height * BLOCK_HEIGHT_SCALE + TYPE_DIGIT;
      var middle := start + |txs| * TX_INDEX_SCALE;
      assert Increase(TxIds(height, |txs|, txs[n]), middle, middle + TX_INDEX_SCALE);
      IncreaseConcat(AllTxIds(height, txs[..n]), TxIds(height, |txs|, txs[n]), start, middle, middle + TX_INDEX_SCALE);
    }
  }

  /** Within an allowed block ids increase strictly, and stay within the block's range. */
  lemma BlockIdsIncrease(b: Block)
    requires IsAllowed(b)
    ensures Increase(IdsOf(b), b.height * 10_000_000_000, (b.height + 1) * 10_000_000_000)
  {
    var start := b.height * BLOCK_HEIGHT_SCALE;
    TxIdsIncrease(b.height, b.txs);
    assert Increase(FinalizeIds(b.height, b.finalizeEvents), start, start + TYPE_DIGIT);
    IncreaseConcat(FinalizeIds(b.height, b.finalizeEvents), AllTxIds(b.height, b.txs), start, start + TYPE_DIGIT,
                   start + BLOCK_HEIGHT_SCALE);
  }

  function IdsOfAll(blocks: seq<Block>): seq<EventId> {
    if blocks == [] then [] else IdsOfAll(blocks[..|blocks| - 1]) + IdsOf(blocks[|blocks| - 1])
  }

  /** Over allowed blocks of increasing heights, all ids increase strictly. */
  lemma {:induction false} IdsIncrease(blocks: seq<Block>, least: int)
    requires forall i | 0 <= i < |blocks| :: IsAllowed(blocks[i]) && least <= blocks[i].height
    requires forall i, j | 0 <= i < j < |blocks| :: blocks[i].height < blocks[j].height
    ensures Increase(IdsOfAll(blocks), least * 10_000_000_000,
                     (if blocks == [] then least else blocks[|blocks| - 1].height + 1) * 10_000_000_000)
  {
    if blocks != [] {
      var n := |blocks| - 1;
      IdsIncrease(blocks[..n], least);
      BlockIdsIncrease(blocks[n]);
      var before := if n == 0 then least else blocks[n - 1].height + 1;
      WiderRange(IdsOfAll(blocks[..n]), least * BLOCK_HEIGHT_SCALE, before * BLOCK_HEIGHT_SCALE,
                 blocks[n].height * BLOCK_HEIGHT_SCALE);
      IncreaseConcat(IdsOfAll(blocks[..n]), IdsOf(blocks[n]), least * BLOCK_HEIGHT_SCALE,
                     blocks[n].height * BLOCK_HEIGHT_SCALE, (blocks[n].height + 1) * BLOCK_HEIGHT_SCALE);
    }
  }

  lemma WiderRange(ids: seq<EventId>, least: int, most: int, wider: int)
    requires Increase(ids, least, most) && most <= wider
    ensures Increase(ids, least, wider)
  {
  }

  lemma {:induction false} TxIdsAre(height: int, txs: seq<nat>, e: EventId)
    ensures e in AllTxIds(height, txs) <==>
            && e.height == height && e.location == TxsResults
            && 1 <= e.txIndex <= |txs| && 1 <= e.eventIndex <= txs[e.txIndex - 1]
  {
    if txs != [] {
      var n := |txs| - 1;
      TxIdsAre(height, txs[..n], e);
      if e.height == height && e.location == TxsResults && e.txIndex == |txs| && 1 <= e.eventIndex <= txs[n] {
        assert TxIds(height, |txs|, txs[n])[e.eventIndex - 1] == e;
      }
    }
  }

  /**
    The ids of a block: its finalize events counted from 1, and the events of each transaction counted from 1, where
    transactions count from 1 too. That none comes twice and in which order they come, BlockIdsIncrease says.
   */
  lemma IdsAre(b: Block, e: EventId)
    ensures e in IdsOf(b) <==>
            && e.height == b.height
            && match e.location
               case FinalizedBlockEvents => e.txIndex == 0 && 1 <= e.eventIndex <= b.finalizeEvents
               case TxsResults => 1 <= e.txIndex <= |b.txs| && 1 <= e.eventIndex <= b.txs[e.txIndex - 1]
  {
    TxIdsAre(b.height, b.txs, e);
    if e.height == b.height && e.location.FinalizedBlockEvents? && e.txIndex == 0 && 1 <= e.eventIndex <= b.finalizeEvents {
      assert FinalizeIds(b.height, b.finalizeEvents)[e.eventIndex - 1] == e;
    }
  }

  /** Counts stay one below what the documentation allows. */
  predicate IsParsable(b: Block) {
    && b.finalizeEvents < 1_000_000_000
    && forall i | 0 <= i < |b.txs| :: b.txs[i] < 10_000 && (b.txs[i] > 0 ==> i + 1 < 800_000)
  }

  lemma ParsableIdParses(b: Block, e: EventId)
    requires b.height >= 0 && IsParsable(b) && e in IdsOf(b)
    ensures ParseEventId(AsBigint(e)) == e
  {
    IdsAre(b, e);
    ParseEncodedIff(e);
  }

  /** An id that does not survive, when a count is too large. */
  lemma UnparsableId(b: Block) returns (e: EventId)
    requires b.height >= 0 && !IsParsable(b)
    ensures e in IdsOf(b) && ParseEventId(AsBigint(e)) != e
  {
    if b.finalizeEvents >= TYPE_DIGIT {
      e := EventId(b.height, FinalizedBlockEvents, 0, TYPE_DIGIT);
    } else {
      var i :| 0 <= i < |b.txs| && !(b.txs[i] < TX_INDEX_SCALE && (b.txs[i] > 0 ==> i + 1 < 800000));
      e := EventId(b.height, TxsResults, i + 1, b.txs[i]);
    }
    IdsAre(b, e);
    ParseEncodedIff(e);
  }

  /** Every assigned id can be parsed back exactly for such counts, since events and transactions are counted from 1. */
  lemma AllParseBackIff(b: Block)
    requires b.height >= 0
    ensures (forall e | e in IdsOf(b) :: ParseEventId(AsBigint(e)) == e) <==> IsParsable(b)
  {
    if IsParsable(b) {
      forall e | e in IdsOf(b)
        ensures ParseEventId(AsBigint(e)) == e
      {
        ParsableIdParses(b, e);
      }
    } else {
      var e := UnparsableId(b);
    }
  }
}
