/**
  Block results as the block store keeps them (internal/fetch/sync/blockstore/storedblock.go), and what the recorder sees
  of them (the attribute filter of internal/fetch/record/mux.go).
 */
module StoredBlocks {
  import opened Options

  datatype Attribute = Attribute(key: string, value: string)

  datatype Event = Event(kind: string, attributes: seq<Attribute>)

  /** `rest` stands for the fields that both conversions copy. */
  datatype TxResult = TxResult(rest: string, events: seq<Event>)

  datatype Results = Results(txs: seq<TxResult>, finalize: seq<Event>)

  /** Byte slices may be nil, here None. */
  datatype StoredAttribute = StoredAttribute(key: Option<string>, value: Option<string>)

  datatype StoredEvent = StoredEvent(kind: string, attributes: seq<StoredAttribute>)

  datatype StoredTx = StoredTx(rest: string, events: seq<StoredEvent>)

  datatype StoredResults = StoredResults(txs: seq<StoredTx>, beginEvents: seq<StoredEvent>, endEvents: seq<StoredEvent>)

  const MODE := "mode"
  const BEGIN := "BeginBlock"
  const END := "EndBlock"

  function Select<T>(s: seq<T>, p: T -> bool): seq<T> {
    if s == [] then [] else Select(s[..|s| - 1], p) + if p(s[|s| - 1]) then [s[|s| - 1]] else []
  }

  function Map<T, U>(s: seq<T>, f: T -> U): seq<U> {
    seq(|s|, i requires 0 <= i < |s| => f(s[i]))
  }

  lemma MapOneMore<T, U>(s: seq<T>, i: nat, f: T -> U)
    requires i < |s|
    ensures Map(s[..i + 1], f) == Map(s[..i], f) + [f(s[i])]
  {
  }

  // ---------------------------------------------------------------------------------------------
  // Storing

  function AttributeToStored(a: Attribute): StoredAttribute {
    if a.key == MODE then StoredAttribute(None, None) else StoredAttribute(Some(a.key), Some(a.value))
  }

  function EventToStored(e: Event): StoredEvent {
    StoredEvent(e.kind, Map(e.attributes, AttributeToStored))
  }

  /** cometToTendermintEvent: mode attributes are left as holes. */
  method StoreEvent(e: Event) returns (t: StoredEvent)
    ensures t == EventToStored(e)
  {
    var attrs := new StoredAttribute[|e.attributes|](_ => StoredAttribute(None, None));
    for i := 0 to |e.attributes|
      invariant forall k | 0 <= k < i :: attrs[k] == AttributeToStored(e.attributes[k])
      invariant forall k | i <= k < attrs.Length :: attrs[k] == StoredAttribute(None, None)
    {
      var a := e.attributes[i];
      if a.key == MODE {
        continue;
      }
      attrs[i] := StoredAttribute(Some(a.key), Some(a.value));
    }
    t := StoredEvent(e.kind, attrs[..]);
  }

  lemma SelectNext<T>(s: seq<T>, i: nat, p: T -> bool)
    requires i < |s|
    ensures Select(s[..i + 1], p) == Select(s[..i], p) + if p(s[i]) then [s[i]] else []
  {
    assert s[..i + 1][..i] == s[..i];
  }

  /** getEventMode: the first mode attribute counts. */
  method GetEventMode(e: Event) returns (mode: string)
    ensures mode == Mode(e.attributes)
  {
    for i := 0 to |e.attributes|
      invariant forall k | 0 <= k < i :: e.attributes[k].key != MODE
    {
      if e.attributes[i].key == MODE {
        FirstMode(e.attributes, i);
        return e.attributes[i].value;
      }
    }
    NoMode(e.attributes);
    mode := "";
  }

  function Mode(attrs: seq<Attribute>): string {
    if attrs == [] then "" else if attrs[0].key == MODE then attrs[0].value else Mode(attrs[1..])
  }

  lemma {:induction false} FirstMode(attrs: seq<Attribute>, i: nat)
    requires i < |attrs| && attrs[i].key == MODE
    requires forall k | 0 <= k < i :: attrs[k].key != MODE
    ensures Mode(attrs) == attrs[i].value
  {
    if i > 0 {
      assert attrs[1..][i - 1] == attrs[i];
      FirstMode(attrs[1..], i - 1);
    }
  }

  lemma {:induction false} NoMode(attrs: seq<Attribute>)
    requires forall k | 0 <= k < |attrs| :: attrs[k].key != MODE
    ensures Mode(attrs) == ""
  {
    if attrs != [] {
      NoMode(attrs[1..]);
    }
  }

  predicate IsEnd(e: Event) { Mode(e.attributes) == END }

  predicate IsNotEnd(e: Event) { !IsEnd(e) }

  function TxToStored(tx: TxResult): StoredTx { StoredTx(tx.rest, Map(tx.events, EventToStored)) }

  function ResultsToStored(r: Results): StoredResults {
    StoredResults(Map(r.txs, TxToStored),
                  Map(Select(r.finalize, IsNotEnd), EventToStored),
                  Map(Select(r.finalize, IsEnd), EventToStored))
  }

  method StoreEvents(events: seq<Event>) returns (stored: seq<StoredEvent>)
    ensures stored == Map(events, EventToStored)
  {
    stored := [];
    for i := 0 to |events|
      invariant stored == Map(events[..i], EventToStored)
    {
      var t := StoreEvent(events[i]);
      stored := stored + [t];
    }
    assert events[..|events|] == events;
  }

  /** cometToTendermintBlockResults */
  method StoreResults(r: Results) returns (s: StoredResults)
    ensures s == ResultsToStored(r)
  {
    var txs := [];
    for i := 0 to |r.txs|
      invariant txs == Map(r.txs[..i], TxToStored)
    {
      var events := StoreEvents(r.txs[i].events);
      txs := txs + [StoredTx(r.txs[i].rest, events)];
      MapOneMore(r.txs, i, TxToStored);
    }
    assert r.txs[..|r.txs|] == r.txs;
    var beginEvents, endEvents := StoreByMode(r.finalize);
    s := StoredResults(txs, beginEvents, endEvents);
  }

  method StoreByMode(events: seq<Event>) returns (beginEvents: seq<StoredEvent>, endEvents: seq<StoredEvent>)
    ensures beginEvents == Map(Select(events, IsNotEnd), EventToStored)
    ensures endEvents == Map(Select(events, IsEnd), EventToStored)
  {
    beginEvents, endEvents := [], [];
    for i := 0 to |events|
      invariant beginEvents == Map(Select(events[..i], IsNotEnd), EventToStored)
      invariant endEvents == Map(Select(events[..i], IsEnd), EventToStored)
    {
      var mode := GetEventMode(events[i]);
      var t := StoreEvent(events[i]);
      SelectNext(events, i, IsNotEnd);
      SelectNext(events, i, IsEnd);
      if mode == BEGIN {
        beginEvents := beginEvents + [t];
      } else if mode == END {
        endEvents := endEvents + [t];
      } else {
        beginEvents := beginEvents + [t];
      }
    }
    assert events[..|events|] == events;
  }

  // ---------------------------------------------------------------------------------------------
  // The gob encoding does not tell an empty slice from a nil one

  function NilIfEmpty(bytes: Option<string>): Option<string> { if bytes == Some("") then None else bytes }

  function GobAttribute(a: StoredAttribute): StoredAttribute { StoredAttribute(NilIfEmpty(a.key), NilIfEmpty(a.value)) }

  function GobEvent(e: StoredEvent): StoredEvent { StoredEvent(e.kind, Map(e.attributes, GobAttribute)) }

  function GobTx(tx: StoredTx): StoredTx { StoredTx(tx.rest, Map(tx.events, GobEvent)) }

  function Gob(s: StoredResults): StoredResults {
    StoredResults(Map(s.txs, GobTx), Map(s.beginEvents, GobEvent), Map(s.endEvents, GobEvent))
  }

  // ---------------------------------------------------------------------------------------------
  // Loading

  function Text(bytes: Option<string>): string { if bytes.Some? then bytes.value else "" }

  function Loaded(attrs: seq<StoredAttribute>): seq<Attribute> {
    if attrs == [] then []
    else
      var a := attrs[|attrs| - 1];
      Loaded(attrs[..|attrs| - 1]) + if a.key.Some? then [Attribute(a.key.value, Text(a.value))] else []
  }

  function ModeAttribute(mode: string): seq<Attribute> { if mode == "" then [] else [Attribute(MODE, mode)] }

  function EventFromStored(t: StoredEvent, mode: string): Event {
    Event(t.kind, Loaded(t.attributes) + ModeAttribute(mode))
  }

  /** tendermintToCometEvent */
  method LoadEvent(t: StoredEvent, mode: string) returns (e: Event)
    ensures e == EventFromStored(t, mode)
  {
    var attrs := [];
    for i := 0 to |t.attributes|
      invariant attrs == Loaded(t.attributes[..i])
    {
      assert t.attributes[..i + 1][..i] == t.attributes[..i];
      var a := t.attributes[i];
      if a.key.Some? {
        attrs := attrs + [Attribute(a.key.value, Text(a.value))];
      }
    }
    assert t.attributes[..|t.attributes|] == t.attributes;
    if mode != "" {
      attrs := attrs + [Attribute(MODE, mode)];
    }
    e := Event(t.kind, attrs);
  }

  function EventsFromStored(ts: seq<StoredEvent>, mode: string): seq<Event> {
    seq(|ts|, i requires 0 <= i < |ts| => EventFromStored(ts[i], mode))
  }

  function TxFromStored(tx: StoredTx): TxResult { TxResult(tx.rest, EventsFromStored(tx.events, "")) }

  function ResultsFromStored(s: StoredResults): Results {
    Results(Map(s.txs, TxFromStored), EventsFromStored(s.beginEvents, BEGIN) + EventsFromStored(s.endEvents, END))
  }

  method LoadEvents(ts: seq<StoredEvent>, mode: string) returns (events: seq<Event>)
    ensures events == EventsFromStored(ts, mode)
  {
    events := [];
    for i := 0 to |ts|
      invariant events == EventsFromStored(ts[..i], mode)
    {
      var e := LoadEvent(ts[i], mode);
      events := events + [e];
    }
    assert ts[..|ts|] == ts;
  }

  /** tendermintToCometBlockResults */
  method LoadResults(s: StoredResults) returns (r: Results)
    ensures r == ResultsFromStored(s)
  {
    var txs := [];
    for i := 0 to |s.txs|
      invariant txs == Map(s.txs[..i], TxFromStored)
    {
      var events := LoadEvents(s.txs[i].events, "");
      txs := txs + [TxResult(s.txs[i].rest, events)];
      MapOneMore(s.txs, i, TxFromStored);
    }
    assert s.txs[..|s.txs|] == s.txs;
    var beginEvents := LoadEvents(s.beginEvents, BEGIN);
    var endEvents := LoadEvents(s.endEvents, END);
    r := Results(txs, beginEvents + endEvents);
  }

  // ---------------------------------------------------------------------------------------------
  // The round trip

  function RoundTrip(r: Results): Results { ResultsFromStored(Gob(ResultsToStored(r))) }

  /** Attributes that survive: neither mode nor without a name. */
  predicate Survives(a: Attribute) { a.key != MODE && a.key != "" }

  /** What becomes of an event: surviving attributes in order, then one mode attribute. */
  function Normal(e: Event, mode: string): Event {
    Event(e.kind, Select(e.attributes, Survives) + ModeAttribute(mode))
  }

  function NormalAll(events: seq<Event>, mode: string): seq<Event> {
    seq(|events|, i requires 0 <= i < |events| => Normal(events[i], mode))
  }

  /** The normal form: all but the EndBlock events in order, then the EndBlock events in order. */
  function Normalized(r: Results): Results {
    Results(seq(|r.txs|, i requires 0 <= i < |r.txs| => TxResult(r.txs[i].rest, NormalAll(r.txs[i].events, ""))),
            NormalAll(Select(r.finalize, IsNotEnd), BEGIN) + NormalAll(Select(r.finalize, IsEnd), END))
  }

  lemma {:induction false} SurvivorsAreLoaded(attrs: seq<Attribute>)
    ensures Loaded(Map(Map(attrs, AttributeToStored), GobAttribute)) == Select(attrs, Survives)
  {
    var stored := Map(Map(attrs, AttributeToStored), GobAttribute);
    if attrs != [] {
      var n := |attrs| - 1;
      SurvivorsAreLoaded(attrs[..n]);
      assert stored[..n] == Map(Map(attrs[..n], AttributeToStored), GobAttribute);
    }
  }

  lemma EventRoundTrip(e: Event, mode: string)
    ensures EventFromStored(GobEvent(EventToStored(e)), mode) == Normal(e, mode)
  {
    SurvivorsAreLoaded(e.attributes);
  }

  lemma EventsRoundTrip(events: seq<Event>, mode: string)
    ensures EventsFromStored(Map(Map(events, EventToStored), GobEvent), mode) == NormalAll(events, mode)
  {
    forall i | 0 <= i < |events|
      ensures EventFromStored(GobEvent(EventToStored(events[i])), mode) == Normal(events[i], mode)
    {
      EventRoundTrip(events[i], mode);
    }
  }

  lemma TxRoundTrip(tx: TxResult)
    ensures TxFromStored(GobTx(TxToStored(tx))) == TxResult(tx.rest, NormalAll(tx.events, ""))
  {
    EventsRoundTrip(tx.events, "");
  }

  /** Storing and loading a block's results yields their normal form. */
  lemma RoundTripNormalizes(r: Results)
    ensures RoundTrip(r) == Normalized(r)
  {
    forall i | 0 <= i < |r.txs|
      ensures RoundTrip(r).txs[i] == TxResult(r.txs[i].rest, NormalAll(r.txs[i].events, ""))
    {
      TxRoundTrip(r.txs[i]);
      assert RoundTrip(r).txs[i] == TxFromStored(GobTx(TxToStored(r.txs[i])));
    }
    assert RoundTrip(r).txs == Normalized(r).txs;
    EventsRoundTrip(Select(r.finalize, IsNotEnd), BEGIN);
    EventsRoundTrip(Select(r.finalize, IsEnd), END);
  }

  /** `kept` are the elements of `s` at the places `at`, in order. */
  ghost predicate IsPicked<T>(kept: seq<T>, s: seq<T>, at: seq<nat>) {
    && |at| == |kept|
    && (forall i, j | 0 <= i < j < |at| :: at[i] < at[j])
    && forall i | 0 <= i < |at| :: at[i] < |s| && kept[i] == s[at[i]]
  }

  lemma {:induction false} SelectPicks<T>(s: seq<T>, p: T -> bool) returns (at: seq<nat>)
    ensures IsPicked(Select(s, p), s, at) && forall i: nat | i < |s| :: i in at <==> p(s[i])
  {
    at := [];
    if s != [] {
      var rest, last := s[..|s| - 1], s[|s| - 1];
      at := SelectPicks(rest, p);
      var picked := Select(rest, p);
      assert s == rest + [last];
      if p(last) {
        PicksOneMore(picked, rest, at, last, p);
        at := at + [|rest|];
      } else {
        LeavesOneMore(picked, rest, at, last, p);
      }
    }
  }

  lemma PicksOneMore<T>(kept: seq<T>, s: seq<T>, at: seq<nat>, x: T, p: T -> bool)
    requires IsPicked(kept, s, at) && (forall i: nat | i < |s| :: i in at <==> p(s[i])) && p(x)
    ensures IsPicked(kept + [x], s + [x], at + [|s|])
    ensures forall i: nat | i < |s + [x]| :: i in at + [|s|] <==> p((s + [x])[i])
  {
  }

  lemma LeavesOneMore<T>(kept: seq<T>, s: seq<T>, at: seq<nat>, x: T, p: T -> bool)
    requires IsPicked(kept, s, at) && (forall i: nat | i < |s| :: i in at <==> p(s[i])) && !p(x)
    ensures IsPicked(kept, s + [x], at)
    ensures forall i: nat | i < |s + [x]| :: i in at <==> p((s + [x])[i])
  {
  }

  /** A loaded event has its kind, the attributes with a name other than mode, each in its place, and at most one mode. */
  lemma LoadedEvent(e: Event, mode: string) returns (kept: seq<Attribute>, at: seq<nat>)
    ensures var loaded := EventFromStored(GobEvent(EventToStored(e)), mode);
            && loaded.kind == e.kind
            && loaded.attributes == kept + if mode == "" then [] else [Attribute("mode", mode)]
    ensures IsPicked(kept, e.attributes, at)
    ensures forall i: nat | i < |e.attributes| :: i in at <==> e.attributes[i].key != "mode" && e.attributes[i].key != ""
  {
    EventRoundTrip(e, mode);
    kept := Select(e.attributes, Survives);
    at := SelectPicks(e.attributes, Survives);
  }

  /** Transactions keep their place, what both conversions copy, and the number of their events. */
  lemma TransactionsAreKept(r: Results, i: nat)
    requires i < |r.txs|
    ensures var t := RoundTrip(r);
            |t.txs| == |r.txs| && t.txs[i].rest == r.txs[i].rest && |t.txs[i].events| == |r.txs[i].events|
  {
    RoundTripNormalizes(r);
  }

  // ---------------------------------------------------------------------------------------------
  // Doing it twice

  lemma {:induction false} SelectConcat<T>(s: seq<T>, t: seq<T>, p: T -> bool)
    ensures Select(s + t, p) == Select(s, p) + Select(t, p)
  {
    if t == [] {
      assert s + t == s;
    } else {
      var n := |t| - 1;
      assert (s + t)[..|s| + n] == s + t[..n];
      SelectConcat(s, t[..n], p);
    }
  }

  lemma {:induction false} SelectAll<T>(s: seq<T>, p: T -> bool)
    requires forall i | 0 <= i < |s| :: p(s[i])
    ensures Select(s, p) == s
  {
    if s != [] {
      SelectAll(s[..|s| - 1], p);
    }
  }

  lemma {:induction false} SelectNone<T>(s: seq<T>, p: T -> bool)
    requires forall i | 0 <= i < |s| :: !p(s[i])
    ensures Select(s, p) == []
  {
    if s != [] {
      SelectNone(s[..|s| - 1], p);
    }
  }

  lemma {:induction false} SelectMembers<T>(s: seq<T>, p: T -> bool)
    ensures forall x :: x in Select(s, p) <==> x in s && p(x)
  {
    if s != [] {
      SelectMembers(s[..|s| - 1], p);
      assert s == s[..|s| - 1] + [s[|s| - 1]];
    }
  }

  lemma {:induction false} ModeIsLast(attrs: seq<Attribute>, mode: string)
    requires forall i | 0 <= i < |attrs| :: attrs[i].key != MODE
    ensures Mode(attrs + ModeAttribute(mode)) == mode
  {
    if attrs != [] {
      assert (attrs + ModeAttribute(mode))[1..] == attrs[1..] + ModeAttribute(mode);
      ModeIsLast(attrs[1..], mode);
    }
  }

  lemma {:induction false} SelectHolds<T>(s: seq<T>, p: T -> bool)
    ensures forall i | 0 <= i < |Select(s, p)| :: p(Select(s, p)[i])
  {
    if s != [] {
      SelectHolds(s[..|s| - 1], p);
    }
  }

  lemma NoModeSurvives(attrs: seq<Attribute>)
    ensures forall i | 0 <= i < |Select(attrs, Survives)| :: Select(attrs, Survives)[i].key != MODE
  {
    SelectHolds(attrs, Survives);
    forall i | 0 <= i < |Select(attrs, Survives)|
      ensures Select(attrs, Survives)[i].key != MODE
    {
      assert Survives(Select(attrs, Survives)[i]);
    }
  }

  lemma ModeDoesNotSurvive(mode: string)
    ensures Select(ModeAttribute(mode), Survives) == [] && Select(ModeAttribute(mode), IsRecorded) == []
  {
    SelectNone(ModeAttribute(mode), Survives);
    SelectNone(ModeAttribute(mode), IsRecorded);
  }

  lemma SelectTwice<T>(s: seq<T>, p: T -> bool)
    ensures Select(Select(s, p), p) == Select(s, p)
  {
    SelectHolds(s, p);
    SelectAll(Select(s, p), p);
  }

  lemma ModeOfNormal(e: Event, mode: string)
    ensures Mode(Normal(e, mode).attributes) == mode
  {
    NoModeSurvives(e.attributes);
    ModeIsLast(Select(e.attributes, Survives), mode);
  }

  lemma SurvivorsTwice(attrs: seq<Attribute>, mode: string)
    ensures Select(Select(attrs, Survives) + ModeAttribute(mode), Survives) == Select(attrs, Survives)
  {
    var kept := Select(attrs, Survives);
    SelectConcat(kept, ModeAttribute(mode), Survives);
    SelectTwice(attrs, Survives);
    ModeDoesNotSurvive(mode);
  }

  lemma NormalTwice(e: Event, mode: string)
    ensures Mode(Normal(e, mode).attributes) == mode
    ensures Normal(Normal(e, mode), mode) == Normal(e, mode)
  {
    ModeOfNormal(e, mode);
    SurvivorsTwice(e.attributes, mode);
  }

  lemma NormalAllTwice(events: seq<Event>, mode: string)
    ensures NormalAll(NormalAll(events, mode), mode) == NormalAll(events, mode)
    ensures forall i | 0 <= i < |events| :: Mode(NormalAll(events, mode)[i].attributes) == mode
  {
    forall i | 0 <= i < |events|
      ensures Mode(Normal(events[i], mode).attributes) == mode
      ensures Normal(Normal(events[i], mode), mode) == Normal(events[i], mode)
    {
      NormalTwice(events[i], mode);
    }
  }

  /** Loaded finalize events are told apart again by the mode they were given. */
  lemma PartitionAgain(begin: seq<Event>, end: seq<Event>)
    requires forall i | 0 <= i < |begin| :: IsNotEnd(begin[i])
    requires forall i | 0 <= i < |end| :: IsEnd(end[i])
    ensures Select(begin + end, IsNotEnd) == begin && Select(begin + end, IsEnd) == end
  {
    SelectConcat(begin, end, IsNotEnd);
    SelectConcat(begin, end, IsEnd);
    SelectAll(begin, IsNotEnd);
    SelectNone(begin, IsEnd);
    SelectAll(end, IsEnd);
    SelectNone(end, IsNotEnd);
  }

  /** Storing and loading twice is the same as once. */
  lemma RoundTripTwice(r: Results)
    ensures RoundTrip(RoundTrip(r)) == RoundTrip(r)
  {
    RoundTripNormalizes(r);
    RoundTripNormalizes(RoundTrip(r));
    var n := Normalized(r);
    forall i | 0 <= i < |r.txs|
      ensures Normalized(n).txs[i] == n.txs[i]
    {
      NormalAllTwice(r.txs[i].events, "");
    }
    assert Normalized(n).txs == n.txs;
    var begin, end := NormalAll(Select(r.finalize, IsNotEnd), BEGIN), NormalAll(Select(r.finalize, IsEnd), END);
    NormalAllTwice(Select(r.finalize, IsNotEnd), BEGIN);
    NormalAllTwice(Select(r.finalize, IsEnd), END);
    PartitionAgain(begin, end);
  }

  // ---------------------------------------------------------------------------------------------
  // What the recorder sees

  const MSG_INDEX := "msg_index"

  predicate IsRecorded(a: Attribute) { a.key != MODE && a.key != MSG_INDEX && a.value != "" }

  /** The attribute filter of processEvent. */
  method FilterAttributes(attrs: seq<Attribute>) returns (kept: seq<Attribute>)
    ensures kept == Select(attrs, IsRecorded)
    ensures exists at: seq<nat> ::
              IsPicked(kept, attrs, at) && forall i: nat | i < |attrs| ::
                i in at <==> attrs[i].key != "mode" && attrs[i].key != "msg_index" && attrs[i].value != ""
  {
    kept := [];
    for i := 0 to |attrs|
      invariant kept == Select(attrs[..i], IsRecorded)
    {
      assert attrs[..i + 1][..i] == attrs[..i];
      if attrs[i].key == MODE || attrs[i].key == MSG_INDEX {
        continue;
      }
      if |attrs[i].value| == 0 {
        continue;
      }
      kept := kept + [attrs[i]];
    }
    assert attrs[..|attrs|] == attrs;
    ghost var at := SelectPicks(attrs, IsRecorded);
  }

  function Seen(e: Event): Event { Event(e.kind, Select(e.attributes, IsRecorded)) }

  function SeenTx(tx: TxResult): seq<Event> { Map(tx.events, Seen) }

  /** The events of a block as the recorder handles them. */
  datatype View = View(txs: seq<seq<Event>>, finalize: seq<Event>)

  function SeenResults(r: Results): View { View(Map(r.txs, SeenTx), Map(r.finalize, Seen)) }

  /** The block with its EndBlock events moved after the others. */
  function Partitioned(r: Results): Results {
    r.(finalize := Select(r.finalize, IsNotEnd) + Select(r.finalize, IsEnd))
  }

  /** An attribute without a name but with a value. */
  predicate IsNameless(a: Attribute) { a.key == "" && a.value != "" }

  predicate AllNamed(events: seq<Event>) {
    forall e | e in events :: forall a | a in e.attributes :: !IsNameless(a)
  }

  predicate ResultsNamed(r: Results) {
    AllNamed(r.finalize) && forall i | 0 <= i < |r.txs| :: AllNamed(r.txs[i].events)
  }

  lemma SelectOneMore<T>(s: seq<T>, x: T, p: T -> bool)
    ensures Select(s + [x], p) == Select(s, p) + if p(x) then [x] else []
  {
    assert (s + [x])[..|s|] == s;
  }

  /** Recording after the round trip keeps as much exactly when no attribute is nameless, and never more. */
  lemma {:induction false} RecordedOfSurvivors(attrs: seq<Attribute>)
    ensures |Select(Select(attrs, Survives), IsRecorded)| <= |Select(attrs, IsRecorded)|
    ensures Select(Select(attrs, Survives), IsRecorded) == Select(attrs, IsRecorded) <==>
            forall a | a in attrs :: !IsNameless(a)
  {
    if attrs != [] {
      var n := |attrs| - 1;
      var init, a := attrs[..n], attrs[n];
      assert attrs == init + [a];
      RecordedOfSurvivors(init);
      RecordOneMore(init, a, Select(Select(init, Survives), IsRecorded), Select(init, IsRecorded));
    }
  }

  lemma SnocAgrees<T>(kept: seq<T>, before: seq<T>, last: seq<T>)
    ensures kept + last == before + last <==> kept == before
  {
    if kept + last == before + last {
      assert (kept + last)[..|kept|] == kept && (before + last)[..|before|] == before;
    }
  }

  lemma SnocDiffers<T>(kept: seq<T>, before: seq<T>, a: T)
    requires |kept| <= |before|
    ensures kept != before + [a]
  {
  }

  lemma SurvivorsOneMore(init: seq<Attribute>, a: Attribute, kept: seq<Attribute>)
    requires kept == Select(Select(init, Survives), IsRecorded)
    ensures Select(Select(init + [a], Survives), IsRecorded) == if Survives(a) && IsRecorded(a) then kept + [a] else kept
  {
    SelectOneMore(init, a, Survives);
    if Survives(a) {
      SelectOneMore(Select(init, Survives), a, IsRecorded);
    } else {
      assert Select(init + [a], Survives) == Select(init, Survives);
    }
  }

  lemma RecordOneMore(init: seq<Attribute>, a: Attribute, kept: seq<Attribute>, before: seq<Attribute>)
    requires kept == Select(Select(init, Survives), IsRecorded) && before == Select(init, IsRecorded)
    requires |kept| <= |before|
    ensures var kept', before' := Select(Select(init + [a], Survives), IsRecorded), Select(init + [a], IsRecorded);
            |kept'| <= |before'| && (kept' == before' <==> kept == before && !IsNameless(a))
  {
    SurvivorsOneMore(init, a, kept);
    SelectOneMore(init, a, IsRecorded);
    AgreesOneMore(kept, before, a);
  }

  lemma AgreesOneMore(kept: seq<Attribute>, before: seq<Attribute>, a: Attribute)
    requires |kept| <= |before|
    ensures var kept' := if Survives(a) && IsRecorded(a) then kept + [a] else kept;
            var before' := if IsRecorded(a) then before + [a] else before;
            |kept'| <= |before'| && (kept' == before' <==> kept == before && !IsNameless(a))
  {
    if Survives(a) {
      SnocAgrees(kept, before, if IsRecorded(a) then [a] else []);
    } else {
      SnocDiffers(kept, before, a);
      assert IsRecorded(a) <==> IsNameless(a);
    }
  }

  /** One event is seen as before exactly when it has no nameless attribute. */
  lemma SeenNormal(e: Event, mode: string)
    ensures Seen(Normal(e, mode)) == Seen(e) <==> forall a | a in e.attributes :: !IsNameless(a)
  {
    SelectConcat(Select(e.attributes, Survives), ModeAttribute(mode), IsRecorded);
    ModeDoesNotSurvive(mode);
    RecordedOfSurvivors(e.attributes);
  }

  lemma SeenNormalAll(events: seq<Event>, mode: string)
    ensures Map(NormalAll(events, mode), Seen) == Map(events, Seen) <==> AllNamed(events)
  {
    forall i | 0 <= i < |events|
      ensures Seen(Normal(events[i], mode)) == Seen(events[i]) <==> forall a | a in events[i].attributes :: !IsNameless(a)
    {
      SeenNormal(events[i], mode);
    }
    var after, before := Map(NormalAll(events, mode), Seen), Map(events, Seen);
    if after == before {
      forall i | 0 <= i < |events|
        ensures forall a | a in events[i].attributes :: !IsNameless(a)
      {
        assert after[i] == before[i];
      }
    }
  }

  lemma ConcatEqual<T>(a: seq<T>, b: seq<T>, c: seq<T>, d: seq<T>)
    requires |a| == |c|
    ensures a + b == c + d <==> a == c && b == d
  {
    assert (a + b)[..|a|] == a && (a + b)[|a|..] == b;
    assert (c + d)[..|c|] == c && (c + d)[|c|..] == d;
  }

  lemma MapConcat<T, U>(s: seq<T>, t: seq<T>, f: T -> U)
    ensures Map(s + t, f) == Map(s, f) + Map(t, f)
  {
  }

  lemma SeenFinalize(events: seq<Event>)
    ensures (Map(NormalAll(Select(events, IsNotEnd), BEGIN) + NormalAll(Select(events, IsEnd), END), Seen) ==
             Map(Select(events, IsNotEnd) + Select(events, IsEnd), Seen)) <==> AllNamed(events)
  {
    var begin, end := Select(events, IsNotEnd), Select(events, IsEnd);
    SeenNormalAll(begin, BEGIN);
    SeenNormalAll(end, END);
    MapConcat(NormalAll(begin, BEGIN), NormalAll(end, END), Seen);
    MapConcat(begin, end, Seen);
    ConcatEqual(Map(NormalAll(begin, BEGIN), Seen), Map(NormalAll(end, END), Seen), Map(begin, Seen), Map(end, Seen));
    SelectMembers(events, IsNotEnd);
    SelectMembers(events, IsEnd);
  }

  /** What the recorder sees of a block in normal form. */
  lemma SeenNormalized(r: Results)
    ensures SeenResults(Normalized(r)).txs == seq(|r.txs|, i requires 0 <= i < |r.txs| =>
                Map(NormalAll(r.txs[i].events, ""), Seen))
  {
    forall i | 0 <= i < |r.txs|
      ensures SeenResults(Normalized(r)).txs[i] == Map(NormalAll(r.txs[i].events, ""), Seen)
    {
      assert SeenResults(Normalized(r)).txs[i] == SeenTx(Normalized(r).txs[i]);
    }
  }

  lemma SeenTxs(r: Results)
    ensures SeenResults(Normalized(r)).txs == SeenResults(r).txs <==> forall i | 0 <= i < |r.txs| :: AllNamed(r.txs[i].events)
  {
    SeenNormalized(r);
    var after, before := SeenResults(Normalized(r)).txs, SeenResults(r).txs;
    forall i | 0 <= i < |r.txs|
      ensures after[i] == before[i] <==> AllNamed(r.txs[i].events)
    {
      SeenNormalAll(r.txs[i].events, "");
      assert before[i] == SeenTx(r.txs[i]);
    }
    assert after == before <==> forall i | 0 <= i < |r.txs| :: after[i] == before[i];
  }

  /**
    From the store the recorder sees what it sees of the block itself, up to the order of finalize events, exactly when
    no attribute of any event has a value but no name.
   */
  lemma RecorderSeesTheSameIff(r: Results)
    ensures SeenResults(RoundTrip(r)) == SeenResults(Partitioned(r)) <==> ResultsNamed(r)
  {
    RoundTripNormalizes(r);
    SeenFinalize(r.finalize);
    SeenTxs(r);
  }

  /** The order is unchanged exactly when no EndBlock event stands before another event. */
  lemma {:induction false} PartitionedIff(events: seq<Event>)
    ensures (Select(events, IsNotEnd) + Select(events, IsEnd) == events) <==>
            forall i, k | 0 <= i < k < |events| :: IsEnd(events[i]) ==> IsEnd(events[k])
  {
    var begin, end := Select(events, IsNotEnd), Select(events, IsEnd);
    if begin + end == events {
      SelectHolds(events, IsNotEnd);
      SelectHolds(events, IsEnd);
      assert forall i | 0 <= i < |begin| :: events[i] == begin[i] && !IsEnd(events[i]);
      assert forall i | |begin| <= i < |events| :: events[i] == end[i - |begin|] && IsEnd(events[i]);
    } else if forall i, k | 0 <= i < k < |events| :: IsEnd(events[i]) ==> IsEnd(events[k]) {
      SortedIsPartitioned(events);
    }
  }

  lemma EndOneMore(init: seq<Event>, last: Event)
    requires Select(init, IsNotEnd) + Select(init, IsEnd) == init && IsEnd(last)
    ensures Select(init + [last], IsNotEnd) + Select(init + [last], IsEnd) == init + [last]
  {
    SelectOneMore(init, last, IsNotEnd);
    SelectOneMore(init, last, IsEnd);
    AppendToSecond(Select(init, IsNotEnd), Select(init, IsEnd), last);
  }

  lemma {:induction false} SortedIsPartitioned(events: seq<Event>)
    requires forall i, k | 0 <= i < k < |events| :: IsEnd(events[i]) ==> IsEnd(events[k])
    ensures Select(events, IsNotEnd) + Select(events, IsEnd) == events
  {
    if events != [] {
      var n := |events| - 1;
      if IsEnd(events[n]) {
        SortedIsPartitioned(events[..n]);
        EndOneMore(events[..n], events[n]);
        assert events == events[..n] + [events[n]];
      } else {
        NoEndAtAll(events);
      }
    }
  }

  lemma AppendToSecond<T>(a: seq<T>, b: seq<T>, x: T)
    ensures a + (b + [x]) == (a + b) + [x]
  {
  }

  lemma NoEndAtAll(events: seq<Event>)
    requires forall i | 0 <= i < |events| :: !IsEnd(events[i])
    ensures Select(events, IsNotEnd) + Select(events, IsEnd) == events
  {
    SelectAll(events, IsNotEnd);
    SelectNone(events, IsEnd);
  }
}
