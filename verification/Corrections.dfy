/**
  Corrections that reconcile the indexer's balances with the node's (cmd/checks/balance/balancecorrection.go).
 */
module Corrections {
  import opened Options

  datatype Balance = Balance(addr: string, asset: string, amount: int)

  const CORRECTION_ADDRESS := "MidgardBalanceCorrectionAddress"

  /** strings.ToUpper on the letters that occur in assets and addresses. */
  function Upper(s: string): string {
    seq(|s|, i requires 0 <= i < |s| => if 'a' <= s[i] <= 'z' then s[i] - 'a' + 'A' else s[i])
  }

  function KeyFor(asset: string, addr: string): string { Upper(asset + "_" + addr) }

  function Key(b: Balance): string { KeyFor(b.asset, b.addr) }

  /** A correction: what the node and what the indexer says an address holds of an asset. */
  datatype Correction = Correction(addr: string, asset: string, nodeAmount: int, indexerAmount: int) {
    function FromAddr(): string { if nodeAmount < indexerAmount then addr else CORRECTION_ADDRESS }

    function ToAddr(): string { if nodeAmount < indexerAmount then CORRECTION_ADDRESS else addr }

    function AbsAmountDiff(): nat {
      if nodeAmount < indexerAmount then indexerAmount - nodeAmount else nodeAmount - indexerAmount
    }
  }

  type Balances = map<string, Balance>

  ghost predicate IsKeyed(m: Balances) {
    forall k | k in m :: Key(m[k]) == k
  }

  function Amount(m: Balances, k: string): int { if k in m then m[k].amount else 0 }

  /** Which keys get a correction. */
  predicate IsNeeded(k: string, node: Balances, indexer: Balances) {
    if k in node then k !in indexer || node[k].amount != indexer[k].amount
    else k in indexer && indexer[k].amount != 0 && indexer[k].addr != CORRECTION_ADDRESS
  }

  function CorrectionFor(k: string, node: Balances, indexer: Balances): Correction
    requires k in node || k in indexer
  {
    var b := if k in node then node[k] else indexer[k];
    Correction(b.addr, b.asset, Amount(node, k), Amount(indexer, k))
  }

  ghost predicate IsDistinct(keys: seq<string>) {
    forall i, j | 0 <= i < j < |keys| :: keys[i] != keys[j]
  }

  /** The corrections for some keys, in any order. */
  ghost predicate AreFor(cs: seq<Correction>, keys: seq<string>, node: Balances, indexer: Balances) {
    && |cs| == |keys| && IsDistinct(keys)
    && forall i | 0 <= i < |keys| ::
         IsNeeded(keys[i], node, indexer) && cs[i] == CorrectionFor(keys[i], node, indexer)
  }

  /** All corrections: one for each key that needs one. */
  ghost predicate AreCorrections(cs: seq<Correction>, keys: seq<string>, node: Balances, indexer: Balances) {
    && AreFor(cs, keys, node, indexer)
    && forall k | IsNeeded(k, node, indexer) :: k in keys
  }

  /** One correction for each key that needs one, in some order. */
  ghost predicate IsCorrectionList(cs: seq<Correction>, node: Balances, indexer: Balances) {
    exists keys :: AreCorrections(cs, keys, node, indexer)
  }

  class BalanceMap {
    var entries: Balances

    constructor (entries: Balances)
      ensures this.entries == entries
    {
      this.entries := entries;
    }
  }

  /** The corrections for the keys visited so far. */
  ghost predicate AreSoFar(cs: seq<Correction>, keys: seq<string>, seen: set<string>, node: Balances, indexer: Balances) {
    && AreFor(cs, keys, node, indexer)
    && forall k :: k in keys <==> k in seen && IsNeeded(k, node, indexer)
  }

  function Maybe<T>(x: T, here: bool): seq<T> { if here then [x] else [] }

  function Optional<T>(x: Option<T>): seq<T> { if x.Some? then [x.value] else [] }

  /** What a visit to one key adds. */
  ghost predicate IsVisit(c: Option<Correction>, k: string, node: Balances, indexer: Balances) {
    && (k in node || k in indexer)
    && c == if IsNeeded(k, node, indexer) then Some(CorrectionFor(k, node, indexer)) else None
  }

  lemma OneMore(cs: seq<Correction>, keys: seq<string>, seen: set<string>, node: Balances, indexer: Balances, k: string,
                c: Option<Correction>)
    requires AreSoFar(cs, keys, seen, node, indexer) && k !in seen && IsVisit(c, k, node, indexer)
    ensures AreSoFar(cs + Optional(c), keys + Maybe(k, c.Some?), seen + {k}, node, indexer)
  {
    var more := keys + Maybe(k, c.Some?);
    assert forall other :: other in more <==> other in keys || (other == k && c.Some?);
  }

  lemma AllSeen(cs: seq<Correction>, keys: seq<string>, seen: set<string>, node: Balances, indexer: Balances)
    requires AreSoFar(cs, keys, seen, node, indexer) && node.Keys + indexer.Keys <= seen
    ensures AreCorrections(cs, keys, node, indexer)
  {
  }

  /** One turn of the first loop: the indexer's entry is compared and deleted. */
  method VisitNodeKey(key: string, node: Balances, indexer: BalanceMap, ghost before: Balances, ghost seen: set<string>)
      returns (bc: Option<Correction>)
    requires key in node && Key(node[key]) == key && key !in seen && indexer.entries == before - seen
    modifies indexer
    ensures indexer.entries == before - (seen + {key})
    ensures IsVisit(bc, key, node, before)
  {
    var b := node[key];
    if key !in indexer.entries {
      return Some(Correction(b.addr, b.asset, b.amount, 0));
    }
    var other := indexer.entries[key];
    RemoveOne(before, seen, key);
    indexer.entries := indexer.entries - {Key(b)};
    bc := if b.amount != other.amount then Some(Correction(b.addr, b.asset, b.amount, other.amount)) else None;
  }

  /** One turn of the second loop. */
  method VisitIndexerKey(key: string, b: Balance, ghost node: Balances, ghost before: Balances)
      returns (bc: Option<Correction>)
    requires key in before && key !in node && before[key] == b
    ensures IsVisit(bc, key, node, before)
  {
    bc := if b.amount != 0 && b.addr != CORRECTION_ADDRESS then Some(Correction(b.addr, b.asset, 0, b.amount)) else None;
  }

  /** The first loop: every key of the node, in any order. */
  method CompareNodeKeys(node: Balances, indexer: BalanceMap) returns (result: seq<Correction>, ghost keys: seq<string>)
    requires IsKeyed(node)
    modifies indexer
    ensures AreSoFar(result, keys, node.Keys, node, old(indexer.entries))
    ensures indexer.entries == old(indexer.entries) - node.Keys
  {
    ghost var before := indexer.entries;
    ghost var seen := {};
    result, keys := [], [];
    var rest := node.Keys;
    while rest != {}
      invariant seen + rest == node.Keys && seen !! rest
      invariant indexer.entries == before - seen
      invariant AreSoFar(result, keys, seen, node, before)
      decreases |rest|
    {
      var key :| key in rest;
      assert Key(node[key]) == key;
      var bc := VisitNodeKey(key, node, indexer, before, seen);
      OneMore(result, keys, seen, node, before, key, bc);
      MoveOne(seen, rest, key);
      result, keys := result + Optional(bc), keys + Maybe(key, bc.Some?);
      rest, seen := rest - {key}, seen + {key};
    }
    assert seen == node.Keys;
  }

  /** The second loop: the keys left in the indexer's map, in any order. */
  method CompareRest(entries: Balances, start: seq<Correction>, ghost startKeys: seq<string>, ghost node: Balances,
                     ghost before: Balances)
      returns (result: seq<Correction>, ghost keys: seq<string>)
    requires entries == before - node.Keys
    requires AreSoFar(start, startKeys, node.Keys, node, before)
    ensures AreSoFar(result, keys, node.Keys + entries.Keys, node, before)
  {
    ghost var seen := node.Keys;
    result, keys := start, startKeys;
    var rest := entries.Keys;
    while rest != {}
      invariant rest <= entries.Keys && rest !! seen && seen + rest == node.Keys + entries.Keys
      invariant AreSoFar(result, keys, seen, node, before)
      decreases |rest|
    {
      var key :| key in rest;
      var bc := VisitIndexerKey(key, entries[key], node, before);
      OneMore(result, keys, seen, node, before, key, bc);
      MoveOne(seen, rest, key);
      result, keys := result + Optional(bc), keys + Maybe(key, bc.Some?);
      rest, seen := rest - {key}, seen + {key};
    }
    assert seen == node.Keys + entries.Keys;
  }

  lemma MoveOne(seen: set<string>, rest: set<string>, key: string)
    requires key in rest && seen !! rest
    ensures (seen + {key}) !! (rest - {key}) && (seen + {key}) + (rest - {key}) == seen + rest
  {
  }

  /** getCorrections; both loops visit their map in any order, and the first deletes from the second map. */
  method GetCorrections(node: Balances, indexer: BalanceMap) returns (result: seq<Correction>)
    requires IsKeyed(node) && IsKeyed(indexer.entries)
    modifies indexer
    ensures IsCorrectionList(result, node, old(indexer.entries))
    ensures indexer.entries == old(indexer.entries) - node.Keys
  {
    ghost var before := indexer.entries;
    ghost var keys;
    result, keys := CompareNodeKeys(node, indexer);
    result, keys := CompareRest(indexer.entries, result, keys, node, before);
    AllSeen(result, keys, node.Keys + indexer.entries.Keys, node, before);
  }

  lemma RemoveOne(m: Balances, seen: set<string>, key: string)
    ensures (m - seen) - {key} == m - (seen + {key})
  {
  }

  // ---------------------------------------------------------------------------------------------
  // Applying corrections as transfers

  /** A change of one address's holding of one asset. */
  datatype Posting = Posting(asset: string, addr: string, amount: int)

  function Transfer(c: Correction): seq<Posting> {
    [Posting(c.asset, c.FromAddr(), 0 - c.AbsAmountDiff()), Posting(c.asset, c.ToAddr(), c.AbsAmountDiff())]
  }

  function Applied(ledger: seq<Posting>, cs: seq<Correction>): seq<Posting> {
    if cs == [] then ledger else Applied(ledger, cs[..|cs| - 1]) + Transfer(cs[|cs| - 1])
  }

  function SumOfKey(ledger: seq<Posting>, k: string): int {
    if ledger == [] then 0
    else
      var p := ledger[|ledger| - 1];
      SumOfKey(ledger[..|ledger| - 1], k) + if KeyFor(p.asset, p.addr) == k then p.amount else 0
  }

  function SumOfAsset(ledger: seq<Posting>, asset: string): int {
    if ledger == [] then 0
    else
      var p := ledger[|ledger| - 1];
      SumOfAsset(ledger[..|ledger| - 1], asset) + if p.asset == asset then p.amount else 0
  }

  /** A key of the correction address. */
  ghost predicate IsCorrectionKey(k: string) {
    exists asset :: k == KeyFor(asset, CORRECTION_ADDRESS)
  }

  lemma TwoMore(ledger: seq<Posting>, p: Posting, q: Posting, k: string)
    ensures SumOfKey(ledger + [p, q], k) ==
            SumOfKey(ledger, k) + (if KeyFor(p.asset, p.addr) == k then p.amount else 0) +
            if KeyFor(q.asset, q.addr) == k then q.amount else 0
  {
    assert (ledger + [p, q])[..|ledger| + 1] == ledger + [p];
    assert (ledger + [p])[..|ledger|] == ledger;
  }

  /** Away from the correction address a transfer adds what its correction says is missing. */
  lemma TransferAdds(ledger: seq<Posting>, c: Correction, k: string)
    requires !IsCorrectionKey(k)
    ensures SumOfKey(ledger + Transfer(c), k) ==
            SumOfKey(ledger, k) + if KeyFor(c.asset, c.addr) == k then c.nodeAmount - c.indexerAmount else 0
  {
    TwoMore(ledger, Transfer(c)[0], Transfer(c)[1], k);
    assert KeyFor(c.asset, CORRECTION_ADDRESS) != k;
  }

  lemma TransferConserves(ledger: seq<Posting>, c: Correction, asset: string)
    ensures SumOfAsset(ledger + Transfer(c), asset) == SumOfAsset(ledger, asset)
  {
    var p, q := Transfer(c)[0], Transfer(c)[1];
    assert (ledger + Transfer(c))[..|ledger| + 1] == ledger + [p];
    assert (ledger + [p])[..|ledger|] == ledger;
  }

  /** Corrections never change how much of an asset there is in all. */
  lemma {:induction false} CorrectionsConserve(ledger: seq<Posting>, cs: seq<Correction>, asset: string)
    ensures SumOfAsset(Applied(ledger, cs), asset) == SumOfAsset(ledger, asset)
  {
    if cs != [] {
      var n := |cs| - 1;
      CorrectionsConserve(ledger, cs[..n], asset);
      TransferConserves(Applied(ledger, cs[..n]), cs[n], asset);
    }
  }

  lemma KeyOfCorrection(k: string, node: Balances, indexer: Balances)
    requires IsKeyed(node) && IsKeyed(indexer) && (k in node || k in indexer)
    ensures var c := CorrectionFor(k, node, indexer); KeyFor(c.asset, c.addr) == k
  {
  }

  lemma {:induction false} EachOnce(ledger: seq<Posting>, cs: seq<Correction>, keys: seq<string>, node: Balances,
                                    indexer: Balances, k: string)
    requires IsKeyed(node) && IsKeyed(indexer) && AreFor(cs, keys, node, indexer)
    requires !IsCorrectionKey(k)
    ensures SumOfKey(Applied(ledger, cs), k) ==
            SumOfKey(ledger, k) + if k in keys then Amount(node, k) - Amount(indexer, k) else 0
  {
    if cs != [] {
      var n := |cs| - 1;
      EachOnce(ledger, cs[..n], keys[..n], node, indexer, k);
      TransferAdds(Applied(ledger, cs[..n]), cs[n], k);
      KeyOfCorrection(keys[n], node, indexer);
      assert keys == keys[..n] + [keys[n]];
      assert keys[n] !in keys[..n];
    }
  }

  /**
    Applied in any order, the corrections make every key match the node (a missing entry is 0), save those of the
    correction address.
   */
  lemma CorrectionsReconcile(ledger: seq<Posting>, cs: seq<Correction>, node: Balances, indexer: Balances, k: string)
    requires IsKeyed(node) && IsKeyed(indexer) && IsCorrectionList(cs, node, indexer)
    requires SumOfKey(ledger, k) == Amount(indexer, k)
    requires !IsCorrectionKey(k)
    ensures SumOfKey(Applied(ledger, cs), k) == Amount(node, k)
  {
    var keys :| AreCorrections(cs, keys, node, indexer);
    EachOnce(ledger, cs, keys, node, indexer, k);
    if k !in keys && k in indexer {
      assert Key(indexer[k]) == k;
    }
  }

  // ---------------------------------------------------------------------------------------------
  // Keys

  lemma UpperConcat(s: string, t: string)
    ensures Upper(s + t) == Upper(s) + Upper(t)
  {
  }

  lemma UnderscoreAt(asset: string, addr: string)
    requires '_' !in addr
    ensures KeyFor(asset, addr) == Upper(asset) + "_" + Upper(addr)
    ensures forall i | |asset| < i < |KeyFor(asset, addr)| :: KeyFor(asset, addr)[i] != '_'
  {
    UpperConcat(asset + "_", addr);
    UpperConcat(asset, "_");
    forall i | 0 <= i < |addr|
      ensures Upper(addr)[i] != '_'
    {
      assert addr[i] in addr;
    }
  }

  /** Accounts share a key only if they differ in case alone, unless an address has an underscore in it. */
  lemma KeysAreDistinct(asset: string, addr: string, asset': string, addr': string)
    requires '_' !in addr && '_' !in addr'
    requires KeyFor(asset, addr) == KeyFor(asset', addr')
    ensures Upper(asset) == Upper(asset') && Upper(addr) == Upper(addr')
  {
    var key, n := KeyFor(asset, addr), |asset|;
    UnderscoreAt(asset, addr);
    UnderscoreAt(asset', addr');
    assert key[n] == '_' && key[|asset'|] == '_';
    assert key[..n] == Upper(asset) && key[n + 1..] == Upper(addr);
    assert key[..n] == Upper(asset') && key[n + 1..] == Upper(addr');
  }
}
