/**
  Fork ancestry (internal/db/chainancestry.go): fork definitions are checked against their parents and merged into a map,
  whose parent links are followed to a root.
 */
module ChainAncestry {
  import opened Options

  datatype Error = UndefinedParent | ParentWithoutHardFork | HeightDiscontinuity | InvalidRange | UnknownTruncatedChain

  datatype Result<T> = Ok(value: T) | Err(error: Error)

  /** Heights of 0 and empty names mean that nothing is given. */
  datatype ForkInfo = ForkInfo(chainId: string, parentChainId: string, earliestHash: string, earliest: int, hardFork: int)

  type ForkMap = map<string, ForkInfo>

  // ---------------------------------------------------------------------------------------------
  // Merging the definitions

  /** One definition checked against those before it, its first height filled in. */
  function Checked(m: ForkMap, fi: ForkInfo): Result<ForkInfo> {
    if fi.parentChainId != "" && fi.parentChainId !in m then Err(UndefinedParent)
    else if fi.parentChainId != "" && m[fi.parentChainId].hardFork == 0 then Err(ParentWithoutHardFork)
    else
      var start := if fi.parentChainId == "" then 1 else m[fi.parentChainId].hardFork + 1;
      var filled := if fi.earliest == 0 then fi.(earliest := start) else fi;
      if fi.parentChainId != "" && filled.earliest != start then Err(HeightDiscontinuity)
      else if filled.hardFork != 0 && filled.hardFork < filled.earliest then Err(InvalidRange)
      else Ok(filled)
  }

  function Combined(infos: seq<ForkInfo>): Result<ForkMap> {
    if infos == [] then Ok(map[])
    else
      var n := |infos| - 1;
      match Combined(infos[..n])
      case Err(e) => Err(e)
      case Ok(m) =>
        match Checked(m, infos[n])
        case Err(e) => Err(e)
        case Ok(fi) => Ok(m[fi.chainId := fi])
  }

  /** Once a definition is refused, the program ends. */
  lemma {:induction false} RefusedForGood(infos: seq<ForkInfo>, n: nat)
    requires n <= |infos| && Combined(infos[..n]).Err?
    ensures Combined(infos) == Combined(infos[..n])
  {
    if n < |infos| {
      var m := |infos| - 1;
      assert infos[..m][..n] == infos[..n];
      RefusedForGood(infos[..m], n);
    } else {
      assert infos[..n] == infos;
    }
  }

  method CombinedForkInfoMap(infos: seq<ForkInfo>) returns (r: Result<ForkMap>)
    ensures r == Combined(infos)
  {
    var m: ForkMap := map[];
    for i := 0 to |infos|
      invariant Combined(infos[..i]) == Ok(m)
    {
      var fi := infos[i];
      assert infos[..i + 1][..i] == infos[..i];
      if Checked(m, fi).Err? {
        RefusedForGood(infos, i + 1);
      }
      if fi.parentChainId != "" {
        if fi.parentChainId !in m {
          return Err(UndefinedParent);
        }
        var parent := m[fi.parentChainId];
        if parent.hardFork == 0 {
          return Err(ParentWithoutHardFork);
        }
        if fi.earliest == 0 {
          fi := fi.(earliest := parent.hardFork + 1);
        }
        if fi.earliest != parent.hardFork + 1 {
          return Err(HeightDiscontinuity);
        }
      } else {
        if fi.earliest == 0 {
          fi := fi.(earliest := 1);
        }
      }
      if fi.hardFork != 0 && fi.hardFork < fi.earliest {
        return Err(InvalidRange);
      }
      m := m[fi.chainId := fi];
    }
    assert infos[..|infos|] == infos;
    r := Ok(m);
  }

  // ---------------------------------------------------------------------------------------------
  // What an accepted list says

  /** A chain that has a parent starts right after the parent's hard fork, and no chain ends before it starts. */
  ghost predicate IsLinked(m: ForkMap, fi: ForkInfo) {
    && (fi.parentChainId != "" ==>
          && fi.parentChainId in m
          && m[fi.parentChainId].hardFork != 0
          && fi.earliest == m[fi.parentChainId].hardFork + 1)
    && (fi.hardFork != 0 ==> fi.earliest <= fi.hardFork)
  }

  ghost predicate AllLinked(m: ForkMap) {
    forall id | id in m :: m[id].chainId == id && IsLinked(m, m[id])
  }

  ghost predicate DistinctIds(infos: seq<ForkInfo>) {
    forall i, j | 0 <= i < j < |infos| :: infos[i].chainId != infos[j].chainId
  }

  lemma StaysLinked(m: ForkMap, fi: ForkInfo, other: ForkInfo)
    requires IsLinked(m, other) && fi.chainId !in m
    ensures IsLinked(m[fi.chainId := fi], other)
  {
  }

  /** A definition of a new chain keeps a map linked, if it is linked itself. */
  lemma LinkedOneMore(m: ForkMap, fi: ForkInfo)
    requires AllLinked(m) && fi.chainId !in m && IsLinked(m, fi)
    ensures AllLinked(m[fi.chainId := fi])
  {
    forall id | id in m
      ensures IsLinked(m[fi.chainId := fi], m[id])
    {
      StaysLinked(m, fi, m[id]);
    }
    StaysLinked(m, fi, fi);
  }

  predicate IsListed(infos: seq<ForkInfo>, id: string) {
    exists i | 0 <= i < |infos| :: infos[i].chainId == id
  }

  /** An accepted list makes a map of just its chains. */
  lemma {:induction false} ListedChains(infos: seq<ForkInfo>, id: string)
    requires Combined(infos).Ok?
    ensures id in Combined(infos).value <==> IsListed(infos, id)
  {
    if infos != [] {
      ListedChains(infos[..|infos| - 1], id);
    }
  }

  /** With distinct ids an accepted list is linked throughout, and has just these chains. */
  lemma {:induction false} AcceptedIsLinked(infos: seq<ForkInfo>)
    requires DistinctIds(infos) && Combined(infos).Ok?
    ensures AllLinked(Combined(infos).value)
    ensures forall id :: id in Combined(infos).value <==> IsListed(infos, id)
  {
    forall id
      ensures id in Combined(infos).value <==> IsListed(infos, id)
    {
      ListedChains(infos, id);
    }
    if infos != [] {
      var n := |infos| - 1;
      AcceptedIsLinked(infos[..n]);
      ListedChains(infos[..n], infos[n].chainId);
      LinkedOneMore(Combined(infos[..n]).value, Checked(Combined(infos[..n]).value, infos[n]).value);
    }
  }

  /** The hard fork height in the last definition of a chain. */
  function LastFork(infos: seq<ForkInfo>, id: string): Option<int> {
    if infos == [] then None
    else if infos[|infos| - 1].chainId == id then Some(infos[|infos| - 1].hardFork)
    else LastFork(infos[..|infos| - 1], id)
  }

  function ForkIn(m: ForkMap, id: string): Option<int> {
    if id in m then Some(m[id].hardFork) else None
  }

  lemma {:induction false} MapHasLastFork(infos: seq<ForkInfo>, id: string)
    requires Combined(infos).Ok?
    ensures LastFork(infos, id) ==
            ForkIn(Combined(infos).value, id)
  {
    if infos != [] {
      MapHasLastFork(infos[..|infos| - 1], id);
    }
  }

  /** The fork of the parent as last defined before definition `i`, and 0 if it has none or is not defined. */
  function ParentFork(infos: seq<ForkInfo>, i: nat): int
    requires i < |infos|
  {
    var fork := LastFork(infos[..i], infos[i].parentChainId);
    if fork.Some? then fork.value else 0
  }

  /** The first height of definition `i`: the one given, or that after the parent's fork, or 1. */
  function FirstHeight(infos: seq<ForkInfo>, i: nat): int
    requires i < |infos|
  {
    if infos[i].earliest != 0 then infos[i].earliest
    else if infos[i].parentChainId != "" then ParentFork(infos, i) + 1
    else 1
  }

  /** Definition `i` goes with those before it. */
  predicate Fits(infos: seq<ForkInfo>, i: nat)
    requires i < |infos|
  {
    && (infos[i].parentChainId != "" ==>
          ParentFork(infos, i) != 0 && (infos[i].earliest == 0 || infos[i].earliest == ParentFork(infos, i) + 1))
    && (infos[i].hardFork != 0 ==> FirstHeight(infos, i) <= infos[i].hardFork)
  }

  lemma FitsInPrefix(infos: seq<ForkInfo>, n: nat, i: nat)
    requires i < n <= |infos|
    ensures Fits(infos[..n], i) <==> Fits(infos, i)
    ensures FirstHeight(infos[..n], i) == FirstHeight(infos, i)
  {
    assert infos[..n][..i] == infos[..i];
  }

  lemma CheckedIffFits(infos: seq<ForkInfo>, n: nat)
    requires n < |infos| && Combined(infos[..n]).Ok?
    ensures var checked := Checked(Combined(infos[..n]).value, infos[n]);
            && (checked.Ok? <==> Fits(infos, n))
            && (checked.Ok? ==> checked.value == infos[n].(earliest := FirstHeight(infos, n)))
  {
    MapHasLastFork(infos[..n], infos[n].parentChainId);
  }

  /** A list is accepted if and only if each definition goes with those before it. */
  lemma {:induction false} AcceptedIff(infos: seq<ForkInfo>)
    ensures Combined(infos).Ok? <==> forall i | 0 <= i < |infos| :: Fits(infos, i)
  {
    if infos != [] {
      var n := |infos| - 1;
      AcceptedIff(infos[..n]);
      forall i | 0 <= i < n
        ensures Fits(infos[..n], i) <==> Fits(infos, i)
      {
        FitsInPrefix(infos, n, i);
      }
      if Combined(infos[..n]).Ok? {
        CheckedIffFits(infos, n);
      }
    }
  }

  /** The first definition that does not go with those before it says why the list is refused. */
  lemma FirstRefusal(infos: seq<ForkInfo>, n: nat)
    requires n < |infos| && !Fits(infos, n) && forall i | 0 <= i < n :: Fits(infos, i)
    ensures var fi, fork := infos[n], LastFork(infos[..n], infos[n].parentChainId);
            Combined(infos) == Err(if fi.parentChainId != "" && fork == None then UndefinedParent
                                   else if fi.parentChainId != "" && fork == Some(0) then ParentWithoutHardFork
                                   else if fi.parentChainId != "" && fi.earliest != 0 && fi.earliest != fork.value + 1
                                   then HeightDiscontinuity
                                   else InvalidRange)
  {
    forall i | 0 <= i < n
      ensures Fits(infos[..n], i)
    {
      FitsInPrefix(infos, n, i);
    }
    AcceptedIff(infos[..n]);
    MapHasLastFork(infos[..n], infos[n].parentChainId);
    assert infos[..n + 1][..n] == infos[..n];
    RefusedForGood(infos, n + 1);
  }

  /** Of a chain the map holds the last definition, as given but for the first height. */
  lemma MapHasLastDefinition(infos: seq<ForkInfo>, i: nat)
    requires Combined(infos).Ok? && i < |infos| && IsLastOf(infos, i)
    ensures infos[i].chainId in Combined(infos).value
    ensures Combined(infos).value[infos[i].chainId] == infos[i].(earliest := FirstHeight(infos, i))
  {
    LastIsKept(infos, i);
    CheckedIffFits(infos, i);
  }

  predicate IsLastOf(infos: seq<ForkInfo>, i: nat)
    requires i < |infos|
  {
    forall k | i < k < |infos| :: infos[k].chainId != infos[i].chainId
  }

  /** The fork that the definition continues is still the one it was checked against. */
  predicate KeepsForkOf(infos: seq<ForkInfo>, i: nat)
    requires i < |infos|
  {
    infos[i].parentChainId != "" ==>
      LastFork(infos, infos[i].parentChainId) == LastFork(infos[..i], infos[i].parentChainId)
  }

  /** No redefinition of a chain moves the hard fork that a child, as last defined, continues. */
  predicate KeepsForks(infos: seq<ForkInfo>) {
    forall i | 0 <= i < |infos| && IsLastOf(infos, i) :: KeepsForkOf(infos, i)
  }

  /** The map holds the last definition of a chain, as it was checked against those before it. */
  lemma {:induction false} LastIsKept(infos: seq<ForkInfo>, i: nat)
    requires Combined(infos).Ok? && i < |infos| && IsLastOf(infos, i)
    ensures Combined(infos[..i]).Ok? && infos[i].chainId in Combined(infos).value
    ensures Checked(Combined(infos[..i]).value, infos[i]) == Ok(Combined(infos).value[infos[i].chainId])
  {
    var n := |infos| - 1;
    if i < n {
      assert infos[..n][..i] == infos[..i];
      LastIsKept(infos[..n], i);
    }
  }

  lemma {:induction false} LastDefinition(infos: seq<ForkInfo>, id: string) returns (i: nat)
    requires Combined(infos).Ok? && id in Combined(infos).value
    ensures i < |infos| && infos[i].chainId == id && IsLastOf(infos, i)
  {
    i := |infos| - 1;
    if infos[i].chainId != id {
      var n := i;
      i := LastDefinition(infos[..n], id);
      assert infos[..n][i] == infos[i];
    }
  }

  /** What was checked against one map is linked in another exactly when the parent's fork is the same there. */
  lemma CheckedIsLinkedIff(before: ForkMap, given: ForkInfo, fi: ForkInfo, m: ForkMap)
    requires Checked(before, given) == Ok(fi)
    ensures IsLinked(m, fi) <==>
            (given.parentChainId != "" ==> ForkIn(m, given.parentChainId) == ForkIn(before, given.parentChainId))
  {
  }

  lemma LinkedIffForkKept(infos: seq<ForkInfo>, i: nat)
    requires Combined(infos).Ok? && i < |infos| && IsLastOf(infos, i)
    ensures var m := Combined(infos).value;
            && infos[i].chainId in m && m[infos[i].chainId].chainId == infos[i].chainId
            && (IsLinked(m, m[infos[i].chainId]) <==> KeepsForkOf(infos, i))
  {
    LastIsKept(infos, i);
    MapHasLastFork(infos, infos[i].parentChainId);
    MapHasLastFork(infos[..i], infos[i].parentChainId);
    CheckedIsLinkedIff(Combined(infos[..i]).value, infos[i], Combined(infos).value[infos[i].chainId], Combined(infos).value);
  }

  /** An accepted list is linked throughout if and only if redefinitions keep the forks that children continue. */
  lemma AcceptedIsLinkedIff(infos: seq<ForkInfo>)
    requires Combined(infos).Ok?
    ensures AllLinked(Combined(infos).value) <==> KeepsForks(infos)
  {
    var m := Combined(infos).value;
    forall i | 0 <= i < |infos| && IsLastOf(infos, i)
      ensures infos[i].chainId in m && m[infos[i].chainId].chainId == infos[i].chainId
      ensures IsLinked(m, m[infos[i].chainId]) <==> KeepsForkOf(infos, i)
    {
      LinkedIffForkKept(infos, i);
    }
    forall id | id in m
      ensures exists i | 0 <= i < |infos| :: infos[i].chainId == id && IsLastOf(infos, i)
    {
      var i := LastDefinition(infos, id);
    }
  }

  /** A later definition of the same chain is not checked against the children of the earlier one. */
  lemma RedefinitionBreaksLinks()
    ensures var infos := [ForkInfo("a", "", "", 1, 10), ForkInfo("b", "a", "", 11, 0), ForkInfo("a", "", "", 1, 20)];
            Combined(infos).Ok? && !AllLinked(Combined(infos).value)
  {
    var first, second, third := ForkInfo("a", "", "", 1, 10), ForkInfo("b", "a", "", 11, 0), ForkInfo("a", "", "", 1, 20);
    assert [first][..0] == [];
    assert Combined([first]) == Ok(map["a" := first]);
    assert [first, second][..1] == [first];
    assert Combined([first, second]) == Ok(map["a" := first, "b" := second]);
    assert [first, second, third][..2] == [first, second];
    var m := map["a" := first, "b" := second]["a" := third];
    assert Combined([first, second, third]) == Ok(m);
    assert !IsLinked(m, m["b"]);
  }

  // ---------------------------------------------------------------------------------------------
  // Following parents

  /** Each chain is the defined parent of the next. */
  ghost predicate Descends(m: ForkMap, line: seq<ForkInfo>) {
    && (forall i | 0 <= i < |line| - 1 :: line[i].chainId in m && m[line[i].chainId] == line[i])
    && forall i, j | 0 <= i < j < |line| && j == i + 1 :: line[j].parentChainId == line[i].chainId
  }

  /** From a chain without a defined parent down to a chain, each the parent of the next. */
  ghost predicate IsLineage(m: ForkMap, line: seq<ForkInfo>) {
    && |line| > 0
    && line[0].parentChainId !in m
    && Descends(m, line)
  }

  /** The root is reached from the chain by following parents. */
  ghost predicate IsRootOf(m: ForkMap, root: ForkInfo, chain: ForkInfo) {
    exists line :: IsLineage(m, line) && line[0] == root && line[|line| - 1] == chain
  }

  /** The chain reached after some steps of the walk, if it goes on so far. */
  function Walk(m: ForkMap, fi: ForkInfo, steps: nat): Result<ForkInfo> {
    if steps == 0 then Ok(fi)
    else
      match Walk(m, fi, steps - 1)
      case Err(e) => Err(e)
      case Ok(here) => if here.parentChainId in m then Ok(m[here.parentChainId]) else Err(UndefinedParent)
  }

  ghost predicate Ends(m: ForkMap, fi: ForkInfo) {
    exists steps: nat :: Walk(m, fi, steps).Err?
  }

  /** Every chain stands under its own name. */
  ghost predicate IsKeyed(m: ForkMap) {
    forall id | id in m :: m[id].chainId == id
  }

  /** recursiveFindRoot, wherever its loop ends at all. */
  method RecursiveFindRoot(m: ForkMap, start: ForkInfo) returns (target: ForkInfo)
    requires IsKeyed(m) && Ends(m, start)
    ensures IsRootOf(m, target, start)
  {
    ghost var steps: nat :| Walk(m, start, steps).Err?;
    ghost var k: nat := 0;
    target := start;
    ghost var line := [start];
    while true
      invariant k < steps && Walk(m, start, k) == Ok(target)
      invariant |line| > 0 && line[0] == target && line[|line| - 1] == start
      invariant Descends(m, line)
      decreases steps - k
    {
      if target.parentChainId !in m {
        break;
      }
      target := m[target.parentChainId];
      k := k + 1;
      line := [target] + line;
    }
    assert IsLineage(m, line);
  }

  lemma {:induction false} StepFirst(m: ForkMap, fi: ForkInfo, steps: nat)
    requires fi.parentChainId in m
    ensures Walk(m, fi, steps + 1) == Walk(m, m[fi.parentChainId], steps)
  {
    if steps > 0 {
      StepFirst(m, fi, steps - 1);
    }
  }

  lemma OneStepMore(m: ForkMap, fi: ForkInfo)
    requires fi.parentChainId in m ==> Ends(m, m[fi.parentChainId])
    ensures Ends(m, fi)
  {
    if fi.parentChainId in m {
      var steps: nat :| Walk(m, m[fi.parentChainId], steps).Err?;
      StepFirst(m, fi, steps);
    } else {
      assert Walk(m, fi, 0) == Ok(fi);
      assert Walk(m, fi, 1).Err?;
    }
  }

  /** Chains are keyed, and a parent that is named is there: definitions are only ever added or replaced. */
  lemma {:induction false} ParentsAreThere(infos: seq<ForkInfo>)
    requires Combined(infos).Ok?
    ensures var m := Combined(infos).value;
            IsKeyed(m) && forall id | id in m :: m[id].parentChainId == "" || m[id].parentChainId in m
    ensures forall i | 0 <= i < |infos| :: infos[i].chainId in Combined(infos).value
  {
    if infos != [] {
      ParentsAreThere(infos[..|infos| - 1]);
    }
  }

  lemma {:induction false} WalkGoesOn(m: ForkMap, fi: ForkInfo, steps: nat)
    requires forall id | id in m :: m[id].parentChainId in m
    requires fi.parentChainId in m
    ensures Walk(m, fi, steps).Ok? && Walk(m, fi, steps).value.parentChainId in m
  {
    if steps > 0 {
      WalkGoesOn(m, fi, steps - 1);
    }
  }

  /** In an accepted list with a chain of empty name, which every root gives as its parent, no walk ends. */
  lemma EmptyNameNeverEnds(infos: seq<ForkInfo>, id: string)
    requires Combined(infos).Ok? && id in Combined(infos).value
    requires "" in Combined(infos).value
    ensures !Ends(Combined(infos).value, Combined(infos).value[id])
  {
    var m := Combined(infos).value;
    ParentsAreThere(infos);
    forall steps: nat
      ensures Walk(m, m[id], steps).Ok?
    {
      WalkGoesOn(m, m[id], steps);
    }
  }

  /** Without one, the chain at which a walk ends names no parent. */
  lemma RootsNameNoParent(infos: seq<ForkInfo>, id: string, root: ForkInfo)
    requires Combined(infos).Ok? && id in Combined(infos).value && "" !in Combined(infos).value
    requires IsRootOf(Combined(infos).value, root, Combined(infos).value[id])
    ensures root.parentChainId == ""
  {
    var m := Combined(infos).value;
    ParentsAreThere(infos);
    var line: seq<ForkInfo> :| IsLineage(m, line) && line[0] == root && line[|line| - 1] == m[id];
    if |line| > 1 {
      assert line[0].chainId in m;
    }
  }

  /** The chains that start before a height; fewer at each step up. */
  function Older(m: ForkMap, height: int): set<string> {
    set id | id in m && m[id].earliest < height
  }

  lemma ParentIsOlder(m: ForkMap, fi: ForkInfo)
    requires AllLinked(m) && IsLinked(m, fi) && fi.parentChainId != ""
    ensures m[fi.parentChainId].earliest < fi.earliest
    ensures Older(m, m[fi.parentChainId].earliest) < Older(m, fi.earliest)
  {
    var parent := m[fi.parentChainId];
    assert IsLinked(m, parent);
    assert fi.parentChainId in Older(m, fi.earliest) && fi.parentChainId !in Older(m, parent.earliest);
  }

  /** Where links are kept the walk ends, because each parent starts earlier than its child. */
  lemma {:induction false} LinkedWalksEnd(m: ForkMap, fi: ForkInfo)
    requires AllLinked(m) && IsLinked(m, fi) && "" !in m
    ensures Ends(m, fi)
    decreases Older(m, fi.earliest)
  {
    if fi.parentChainId in m {
      ParentIsOlder(m, fi);
      LinkedWalksEnd(m, m[fi.parentChainId]);
    }
    OneStepMore(m, fi);
  }

  /** All definitions of a chain name the same parent. */
  predicate KeepsParents(infos: seq<ForkInfo>) {
    forall i, j | 0 <= i < j < |infos| :: infos[i].chainId == infos[j].chainId ==>
      infos[i].parentChainId == infos[j].parentChainId
  }

  /** Where a chain is first defined. */
  function FirstIndex(infos: seq<ForkInfo>, id: string): (i: nat)
    ensures i <= |infos|
    ensures forall k | 0 <= k < i :: infos[k].chainId != id
    ensures i < |infos| ==> infos[i].chainId == id
  {
    if infos == [] || infos[0].chainId == id then 0 else 1 + FirstIndex(infos[1..], id)
  }

  lemma {:induction false} AcceptedSoFar(infos: seq<ForkInfo>, i: nat)
    requires Combined(infos).Ok? && i < |infos|
    ensures Combined(infos[..i]).Ok? && Checked(Combined(infos[..i]).value, infos[i]).Ok?
  {
    var n := |infos| - 1;
    if i < n {
      assert infos[..n][..i] == infos[..i];
      AcceptedSoFar(infos[..n], i);
    }
  }

  lemma {:induction false} DefinedBy(infos: seq<ForkInfo>, id: string) returns (i: nat)
    requires Combined(infos).Ok? && id in Combined(infos).value
    ensures i < |infos| && infos[i].chainId == id
    ensures Combined(infos).value[id].parentChainId == infos[i].parentChainId
  {
    i := LastDefinition(infos, id);
    LastIsKept(infos, i);
  }

  /** A parent is defined before the first definition of its child, when all definitions name it. */
  lemma ParentIsFirst(infos: seq<ForkInfo>, id: string)
    requires Combined(infos).Ok? && KeepsParents(infos) && id in Combined(infos).value
    requires Combined(infos).value[id].parentChainId != ""
    ensures FirstIndex(infos, Combined(infos).value[id].parentChainId) < FirstIndex(infos, id)
  {
    var i := DefinedBy(infos, id);
    var first, parent := FirstIndex(infos, id), infos[i].parentChainId;
    assert first <= i && infos[first].parentChainId == parent;
    AcceptedSoFar(infos, first);
    var k := DefinedBy(infos[..first], parent);
    assert infos[..first][k] == infos[k];
  }

  lemma {:induction false} SteadyWalksEnd(infos: seq<ForkInfo>, id: string)
    requires Combined(infos).Ok? && KeepsParents(infos)
    requires id in Combined(infos).value && "" !in Combined(infos).value
    ensures Ends(Combined(infos).value, Combined(infos).value[id])
    decreases FirstIndex(infos, id)
  {
    var m := Combined(infos).value;
    if m[id].parentChainId in m {
      ParentIsFirst(infos, id);
      SteadyWalksEnd(infos, m[id].parentChainId);
    }
    OneStepMore(m, m[id]);
  }

  /** Where definitions keep forks or keep parents, the walk to the root ends exactly when no chain has the empty name. */
  lemma UnmovedWalksEndIff(infos: seq<ForkInfo>, id: string)
    requires Combined(infos).Ok? && id in Combined(infos).value
    requires KeepsForks(infos) || KeepsParents(infos)
    ensures Ends(Combined(infos).value, Combined(infos).value[id]) <==> "" !in Combined(infos).value
  {
    var m := Combined(infos).value;
    if "" in m {
      EmptyNameNeverEnds(infos, id);
    } else if KeepsParents(infos) {
      SteadyWalksEnd(infos, id);
    } else {
      AcceptedIsLinkedIff(infos);
      LinkedWalksEnd(m, m[id]);
    }
  }

  /** A redefinition that moves a fork and names a descendant as parent makes a cycle, in which the walk never ends. */
  lemma CycleNeverEnds()
    ensures var infos := [ForkInfo("a", "", "", 1, 10), ForkInfo("b", "a", "", 11, 20), ForkInfo("a", "b", "", 21, 0)];
            && Combined(infos).Ok? && "" !in Combined(infos).value
            && forall id | id in Combined(infos).value :: !Ends(Combined(infos).value, Combined(infos).value[id])
  {
    var first, second, third := ForkInfo("a", "", "", 1, 10), ForkInfo("b", "a", "", 11, 20), ForkInfo("a", "b", "", 21, 0);
    assert [first][..0] == [];
    assert Combined([first]) == Ok(map["a" := first]);
    assert [first, second][..1] == [first];
    assert Combined([first, second]) == Ok(map["a" := first, "b" := second]);
    assert [first, second, third][..2] == [first, second];
    var m := map["a" := first, "b" := second]["a" := third];
    assert Combined([first, second, third]) == Ok(m);
    forall id, steps: nat | id in m
      ensures Walk(m, m[id], steps).Ok?
    {
      WalkGoesOn(m, m[id], steps);
    }
  }

  // ---------------------------------------------------------------------------------------------
  // When the walk ends, for all maps

  lemma {:induction false} EndedForGood(m: ForkMap, fi: ForkInfo, steps: nat, more: nat)
    requires steps <= more && Walk(m, fi, steps).Err?
    ensures Walk(m, fi, more).Err?
  {
    if steps < more {
      EndedForGood(m, fi, steps, more - 1);
    }
  }

  lemma {:induction false} WalkOn(m: ForkMap, fi: ForkInfo, a: nat, b: nat)
    requires Walk(m, fi, a).Ok?
    ensures Walk(m, fi, a + b) == Walk(m, Walk(m, fi, a).value, b)
  {
    if b > 0 {
      WalkOn(m, fi, a, b - 1);
    }
  }

  /** Following parents from the chain leads back to it. */
  ghost predicate IsOwnAncestor(m: ForkMap, fi: ForkInfo) {
    exists steps: nat :: steps > 0 && Walk(m, fi, steps) == Ok(fi)
  }

  lemma {:induction false} RoundAndRound(m: ForkMap, fi: ForkInfo, round: nat, times: nat)
    requires Walk(m, fi, round) == Ok(fi)
    ensures Walk(m, fi, times * round) == Ok(fi)
  {
    if times > 0 {
      RoundAndRound(m, fi, round, times - 1);
      WalkOn(m, fi, (times - 1) * round, round);
      assert (times - 1) * round + round == times * round;
    }
  }

  lemma AtLeast(steps: nat, round: nat)
    requires round > 0
    ensures steps <= steps * round
  {
  }

  /** The walk from a chain that is its own ancestor, or leads to one, goes on for ever. */
  lemma CyclesDoNotEnd(m: ForkMap, fi: ForkInfo, a: nat, steps: nat)
    requires Walk(m, fi, a).Ok? && IsOwnAncestor(m, Walk(m, fi, a).value)
    ensures Walk(m, fi, steps).Ok?
  {
    var here := Walk(m, fi, a).value;
    var round: nat :| round > 0 && Walk(m, here, round) == Ok(here);
    RoundAndRound(m, here, round, steps);
    WalkOn(m, fi, a, steps * round);
    AtLeast(steps, round);
    if Walk(m, fi, steps).Err? {
      EndedForGood(m, fi, steps, a + steps * round);
    }
  }

  /** The names of the chains reached by the first steps. */
  function Reached(m: ForkMap, fi: ForkInfo, steps: nat): (names: seq<string>)
    requires Walk(m, fi, steps).Ok?
    ensures |names| == steps
  {
    if steps == 0 then []
    else Reached(m, fi, steps - 1) + [Walk(m, fi, steps - 1).value.parentChainId]
  }

  lemma {:induction false} ReachedAt(m: ForkMap, fi: ForkInfo, steps: nat, i: nat)
    requires Walk(m, fi, steps).Ok? && i < steps
    ensures var id := Reached(m, fi, steps)[i]; id in m && Walk(m, fi, i + 1) == Ok(m[id])
  {
    if i < steps - 1 {
      ReachedAt(m, fi, steps - 1, i);
    }
  }

  /** Of more names than there are, two are the same. */
  lemma {:induction false} Pigeonhole(names: seq<string>, all: set<string>) returns (i: nat, j: nat)
    requires |names| > |all| && forall k | 0 <= k < |names| :: names[k] in all
    ensures i < j < |names| && names[i] == names[j]
  {
    var n := |names| - 1;
    if names[n] in names[..n] {
      j := n;
      i :| 0 <= i < n && names[i] == names[n];
    } else {
      i, j := Pigeonhole(names[..n], all - {names[n]});
    }
  }

  /** A walk of more steps than there are chains comes to one of them twice. */
  lemma LongWalksCycle(m: ForkMap, fi: ForkInfo) returns (a: nat)
    requires Walk(m, fi, |m| + 1).Ok?
    ensures Walk(m, fi, a).Ok? && IsOwnAncestor(m, Walk(m, fi, a).value)
  {
    var names := Reached(m, fi, |m| + 1);
    forall k | 0 <= k < |names|
      ensures names[k] in m.Keys && Walk(m, fi, k + 1) == Ok(m[names[k]])
    {
      ReachedAt(m, fi, |m| + 1, k);
    }
    var i, j := Pigeonhole(names, m.Keys);
    a := i + 1;
    WalkOn(m, fi, a, j - i);
    assert Walk(m, m[names[i]], j - i) == Ok(m[names[i]]);
  }

  /** A walk that ends at all does so within one step more than there are chains: any map. */
  lemma EndsSoonIff(m: ForkMap, fi: ForkInfo)
    ensures Ends(m, fi) <==> Walk(m, fi, |m| + 1).Err?
  {
    if Walk(m, fi, |m| + 1).Ok? {
      var a := LongWalksCycle(m, fi);
      forall steps: nat
        ensures Walk(m, fi, steps).Ok?
      {
        CyclesDoNotEnd(m, fi, a, steps);
      }
    }
  }

  /** The walk from a chain ends exactly when neither the chain nor an ancestor is its own ancestor: any map. */
  lemma WalkEndsIff(m: ForkMap, fi: ForkInfo)
    ensures Ends(m, fi) <==> forall a: nat | Walk(m, fi, a).Ok? :: !IsOwnAncestor(m, Walk(m, fi, a).value)
  {
    if Ends(m, fi) {
      var steps: nat :| Walk(m, fi, steps).Err?;
      forall a: nat | Walk(m, fi, a).Ok?
        ensures !IsOwnAncestor(m, Walk(m, fi, a).value)
      {
        if IsOwnAncestor(m, Walk(m, fi, a).value) {
          CyclesDoNotEnd(m, fi, a, steps);
        }
      }
    } else {
      EndsSoonIff(m, fi);
      var a := LongWalksCycle(m, fi);
    }
  }

  /** All walks of a map end exactly when no chain in it is its own ancestor. */
  lemma AllWalksEndIff(m: ForkMap)
    ensures (forall id | id in m :: Ends(m, m[id])) <==> forall id | id in m :: !IsOwnAncestor(m, m[id])
  {
    forall id | id in m
      ensures Ends(m, m[id]) ==> !IsOwnAncestor(m, m[id])
      ensures !Ends(m, m[id]) ==> exists k | k in m :: IsOwnAncestor(m, m[k])
    {
      WalkEndsIff(m, m[id]);
      assert Walk(m, m[id], 0) == Ok(m[id]);
      if !Ends(m, m[id]) {
        var a: nat :| Walk(m, m[id], a).Ok? && IsOwnAncestor(m, Walk(m, m[id], a).value);
        if a > 0 {
          ReachedAt(m, m[id], a, a - 1);
        }
      }
    }
  }

  // ---------------------------------------------------------------------------------------------
  // Height ranges

  /** The heights of a chain; without a hard fork it has no end. */
  predicate Owns(fi: ForkInfo, height: int) {
    fi.earliest <= height && (fi.hardFork == 0 || height <= fi.hardFork)
  }

  lemma LinkedLine(m: ForkMap, line: seq<ForkInfo>)
    requires AllLinked(m) && IsLineage(m, line) && IsLinked(m, line[|line| - 1])
    ensures "" !in m
    ensures forall i | 0 <= i < |line| :: IsLinked(m, line[i])
  {
    forall i | 0 <= i < |line|
      ensures IsLinked(m, line[i])
    {
      if i < |line| - 1 {
        assert line[i].chainId in m;
      }
    }
    assert IsLinked(m, line[0]);
  }

  lemma {:induction false} LineRises(m: ForkMap, line: seq<ForkInfo>, i: nat, j: nat)
    requires AllLinked(m) && IsLineage(m, line) && IsLinked(m, line[|line| - 1])
    requires i < j < |line|
    ensures line[i].hardFork != 0 && line[i].earliest <= line[i].hardFork < line[j].earliest
    decreases j - i
  {
    LinkedLine(m, line);
    assert line[i].chainId in m && line[i + 1].parentChainId == line[i].chainId;
    assert IsLinked(m, line[i]) && IsLinked(m, line[i + 1]);
    if i + 1 < j {
      LineRises(m, line, i + 1, j);
    }
  }

  lemma {:induction false} SomeOwner(m: ForkMap, line: seq<ForkInfo>, j: nat, height: int) returns (i: nat)
    requires AllLinked(m) && IsLineage(m, line) && IsLinked(m, line[|line| - 1])
    requires j < |line| && line[0].earliest <= height
    requires line[j].hardFork == 0 || height <= line[j].hardFork
    ensures i <= j && Owns(line[i], height)
  {
    i := j;
    if height < line[j].earliest {
      LinkedLine(m, line);
      LineRises(m, line, j - 1, j);
      i := SomeOwner(m, line, j - 1, height);
    }
  }

  /** From the root's first height to the chain's last, every height belongs to exactly one chain of the line. */
  lemma HeightsArePartitioned(m: ForkMap, line: seq<ForkInfo>, height: int)
    requires AllLinked(m) && IsLineage(m, line) && IsLinked(m, line[|line| - 1])
    ensures (exists i | 0 <= i < |line| :: Owns(line[i], height)) <==>
            line[0].earliest <= height && (line[|line| - 1].hardFork == 0 || height <= line[|line| - 1].hardFork)
    ensures forall i, j | 0 <= i < j < |line| :: !(Owns(line[i], height) && Owns(line[j], height))
  {
    forall i, j | 0 <= i < j < |line|
      ensures line[i].hardFork != 0 && line[i].earliest <= line[i].hardFork < line[j].earliest
    {
      LineRises(m, line, i, j);
    }
    var last := |line| - 1;
    if line[0].earliest <= height && (line[last].hardFork == 0 || height <= line[last].hardFork) {
      var i := SomeOwner(m, line, last, height);
    }
    LinkedLine(m, line);
  }

  // ---------------------------------------------------------------------------------------------
  // EnrichAndGetRoot

  datatype QualifiedId = QualifiedId(name: string, startHash: string, startHeight: int, hardFork: int)

  function MergeInfo(id: QualifiedId, info: ForkInfo): QualifiedId {
    QualifiedId(id.name,
                if info.earliestHash != "" then info.earliestHash else id.startHash,
                if info.earliest != 0 then info.earliest else id.startHeight,
                if info.hardFork != 0 then info.hardFork else id.hardFork)
  }

  predicate IsInvalid(id: QualifiedId) { id.hardFork != 0 && id.hardFork < id.startHeight }

  /** The id as merged, and its root: the chain itself exactly when it has no parent. */
  method EnrichAndGetRoot(m: ForkMap, chainId: QualifiedId) returns (merged: QualifiedId, root: Result<QualifiedId>)
    requires IsKeyed(m)
    requires chainId.name in m && !IsInvalid(MergeInfo(chainId, m[chainId.name])) ==> Ends(m, m[chainId.name])
    ensures chainId.name !in m ==> merged == chainId
    ensures chainId.name !in m ==> root == if chainId.startHeight != 1 then Err(UnknownTruncatedChain) else Ok(chainId)
    ensures chainId.name in m ==> merged == MergeInfo(chainId, m[chainId.name])
    // What the definition gives wins over what the node reported.
    ensures chainId.name in m ==>
        var info := m[chainId.name];
        && merged.name == chainId.name
        && merged.startHash == (if info.earliestHash == "" then chainId.startHash else info.earliestHash)
        && merged.startHeight == (if info.earliest == 0 then chainId.startHeight else info.earliest)
        && merged.hardFork == (if info.hardFork == 0 then chainId.hardFork else info.hardFork)
        && (root == Err(InvalidRange) <==> merged.hardFork != 0 && merged.hardFork < merged.startHeight)
    ensures chainId.name in m ==> (root.Err? <==> IsInvalid(merged))
    ensures chainId.name in m && root.Ok? ==>
        exists r :: IsRootOf(m, r, m[chainId.name]) &&
          root.value == if m[chainId.name].parentChainId !in m then merged
                        else QualifiedId(r.chainId, r.earliestHash, r.earliest, r.hardFork)
  {
    merged := chainId;
    if chainId.name !in m {
      root := if chainId.startHeight != 1 then Err(UnknownTruncatedChain) else Ok(chainId);
      return;
    }
    var target := m[chainId.name];
    merged := MergeInfo(chainId, target);
    if merged.hardFork != 0 && merged.hardFork < merged.startHeight {
      root := Err(InvalidRange);
      return;
    }
    target := RecursiveFindRoot(m, target);
    RootIsOther(m, target, m[chainId.name]);
    if target.chainId == merged.name {
      root := Ok(merged);
      return;
    }
    root := Ok(QualifiedId(target.chainId, target.earliestHash, target.earliest, target.hardFork));
  }

  lemma RootIsOther(m: ForkMap, root: ForkInfo, chain: ForkInfo)
    requires IsKeyed(m) && IsRootOf(m, root, chain)
    requires chain.chainId in m && m[chain.chainId] == chain
    ensures root.chainId == chain.chainId <==> chain.parentChainId !in m
  {
    var line: seq<ForkInfo> :| IsLineage(m, line) && line[0] == root && line[|line| - 1] == chain;
    var last := |line| - 1;
    if last > 0 {
      assert line[last].parentChainId == line[last - 1].chainId;
      assert line[0].chainId in m && m[line[0].chainId] == line[0];
    }
  }
}
