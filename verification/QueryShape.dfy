/** Cost and depth of a query told by its fields, wherever they stand (limits/cost.rs). */
module QueryShape {
  import opened Common
  import opened Ast
  import opened Planner
  import opened Counting
  import opened Cost

  // ---- all selections of a query ---------------------------------------------------------------

  function Children(s: Selection): seq<Selection> {
    match s
    case FieldSel(f) => f.selections
    case InlineFragment(_, _, body) => body
    case FragmentSpread(_, _) => []
  }

  /** A selection and all that stands in it. */
  function Nodes(s: Selection): seq<Selection> {
    match s
    case FieldSel(f) => [s] + AllNodes(f.selections)
    case InlineFragment(_, _, body) => [s] + AllNodes(body)
    case FragmentSpread(_, _) => [s]
  }

  function AllNodes(sels: seq<Selection>): seq<Selection> {
    if sels == [] then [] else Nodes(sels[0]) + AllNodes(sels[1..])
  }

  predicate IsField(s: Selection) { s.FieldSel? }

  predicate IsSearch(s: Selection) { s.FieldSel? && Contains(s.field.name, "search") }

  predicate HasSelections(s: Selection) { s.FieldSel? && s.field.selections != [] }

  /** A name that starts with `search`, or ends in one `s`. */
  predicate NamesList(name: string) {
    || (|name| >= 6 && name[..6] == "search")
    || (name != "" && name[|name| - 1] == 's' && (|name| == 1 || name[|name| - 2] != 's'))
  }

  predicate IsListWithSelections(s: Selection) { HasSelections(s) && NamesList(s.field.name) }

  predicate IsSpread(s: Selection) { s.FragmentSpread? }

  lemma NamesListExactly(name: string)
    ensures LooksLikeList(name) <==> NamesList(name)
  {
    Starts(name);
    LastIs(name, 's');
    LastTwoAre(name);
    hide StartsWith, EndsWith;
  }

  lemma Starts(name: string)
    ensures StartsWith(name, "search") <==> |name| >= 6 && name[..6] == "search"
  {
  }

  lemma LastIs(name: string, c: char)
    ensures EndsWith(name, [c]) <==> name != "" && name[|name| - 1] == c
  {
    assert name != "" ==> name[|name| - 1..] == [name[|name| - 1]];
  }

  lemma LastTwoAre(name: string)
    ensures EndsWith(name, "ss") <==> |name| > 1 && name[|name| - 1] == 's' && name[|name| - 2] == 's'
  {
    if |name| > 1 {
      var end := name[|name| - 2..];
      assert |end| == 2 && end[0] == name[|name| - 2] && end[1] == name[|name| - 1];
      assert end == [end[0], end[1]];
    }
  }

  /** 20 for a search field and 1 for any other, 3 more with selections, 5 more for a list of these, 1 for a spread. */
  function Priced(nodes: seq<Selection>): int {
    19 * Count(nodes, IsSearch) + Count(nodes, IsField) + 3 * Count(nodes, HasSelections)
    + 5 * Count(nodes, IsListWithSelections) + Count(nodes, IsSpread)
  }

  lemma PricesAdd(a: seq<Selection>, b: seq<Selection>)
    ensures Priced(a + b) == Priced(a) + Priced(b) && Priced([]) == 0
  {
    CountAppend(a, b, IsSearch);
    CountAppend(a, b, IsField);
    CountAppend(a, b, HasSelections);
    CountAppend(a, b, IsListWithSelections);
    CountAppend(a, b, IsSpread);
  }

  lemma OnePrice(s: Selection)
    ensures Priced([s]) == match s
      case FieldSel(f) =>
        (if Contains(f.name, "search") then 20 else 1)
        + if f.selections == [] then 0 else 3 + if NamesList(f.name) then 5 else 0
      case InlineFragment(_, _, _) => 0
      case FragmentSpread(_, _) => 1
  {
    CountFirst(s, [], IsSearch);
    CountFirst(s, [], IsField);
    CountFirst(s, [], HasSelections);
    CountFirst(s, [], IsListWithSelections);
    CountFirst(s, [], IsSpread);
    assert [s] + [] == [s];
    PricesAdd([], []);
    hide Count;
  }

  /** Without overrides a query costs what its fields and spreads cost, at whatever depth they stand. */
  lemma {:induction false} CostCounts(sels: seq<Selection>, parent: string)
    ensures ExactCosts(sels, map[], parent) == Priced(AllNodes(sels))
    decreases sels
  {
    hide Priced, Contains, LooksLikeList, NamesList;
    if sels == [] {
      PricesAdd([], []);
    } else {
      OneCostCounts(sels[0], parent);
      CostCounts(sels[1..], parent);
      PricesAdd(Nodes(sels[0]), AllNodes(sels[1..]));
    }
  }

  lemma {:induction false} OneCostCounts(s: Selection, parent: string)
    ensures ExactCost(s, map[], parent) == Priced(Nodes(s))
    decreases s
  {
    hide Priced, Contains, LooksLikeList, NamesList;
    OnePrice(s);
    match s {
      case FieldSel(f) =>
        CostCounts(f.selections, parent);
        PricesAdd([s], AllNodes(f.selections));
        NamesListExactly(f.name);
        NoSelections(f.selections);
      case InlineFragment(_, _, body) =>
        CostCounts(body, parent);
        PricesAdd([s], AllNodes(body));
      case FragmentSpread(_, _) =>
    }
  }

  lemma NoSelections(sels: seq<Selection>)
    ensures sels == [] ==> AllNodes(sels) == [] && Priced(AllNodes(sels)) == 0
  {
    PricesAdd([], []);
  }

  /** An override is charged instead, clamped to what a signed 32-bit integer holds of the non-negative ones. */
  lemma OverridesDecide(overrides: map<string, int>, parent: string, name: string, charge: int)
    requires parent + "." + name in overrides && overrides[parent + "." + name] == charge
    ensures var cost := FieldCost(overrides, parent, name);
      (charge <= 0 ==> cost == 0) && (0 <= charge <= 0x7FFF_FFFF ==> cost == charge)
      && (charge > 0x7FFF_FFFF ==> cost == 0x7FFF_FFFF)
  {
  }

  // ---- depth -----------------------------------------------------------------------------------------

  /** What stands at the end of a path of positions. */
  function At(sels: seq<Selection>, path: seq<nat>): Option<Selection>
    decreases |path|
  {
    if path == [] || path[0] >= |sels| then None
    else if |path| == 1 then Some(sels[path[0]])
    else At(Children(sels[path[0]]), path[1..])
  }

  ghost predicate LeadsToField(sels: seq<Selection>, path: seq<nat>) {
    At(sels, path).Some? && At(sels, path).value.FieldSel?
  }

  lemma DepthByChildren(s: Selection, depth: nat)
    ensures Depth(s, depth)
         == if s.FieldSel? then Max(depth, Depths(Children(s), depth + 1)) else Depths(Children(s), depth + 1)
  {
  }

  /** No field stands at the end of a path longer than the depth. */
  lemma {:induction false} NoPathIsLonger(sels: seq<Selection>, depth: nat, path: seq<nat>)
    requires LeadsToField(sels, path)
    ensures depth + |path| - 1 <= Depths(sels, depth)
    decreases |path|
  {
    var s := sels[path[0]];
    OneOfThem(sels, depth, path[0]);
    DepthByChildren(s, depth);
    if |path| > 1 {
      NoPathIsLonger(Children(s), depth + 1, path[1..]);
    }
  }

  lemma {:induction false} OneOfThem(sels: seq<Selection>, depth: nat, k: nat)
    requires k < |sels|
    ensures Depth(sels[k], depth) <= Depths(sels, depth)
  {
    hide Depth;
    if k > 0 {
      OneOfThem(sels[1..], depth, k - 1);
    }
  }

  /** And a field stands at the end of a path as long as it. */
  lemma {:induction false} SomePathIsAsLong(sels: seq<Selection>, depth: nat) returns (path: seq<nat>)
    requires depth > 0
    ensures Depths(sels, depth) > 0 ==> LeadsToField(sels, path) && depth + |path| - 1 == Depths(sels, depth)
    decreases sels
  {
    path := [];
    if sels != [] {
      if Depth(sels[0], depth) >= Depths(sels[1..], depth) {
        path := PathIn(sels[0], depth);
        path := [0] + path;
      } else {
        var rest := SomePathIsAsLong(sels[1..], depth);
        path := [rest[0] + 1] + rest[1..];
        assert path[1..] == rest[1..];
      }
    }
  }

  lemma {:induction false} PathIn(s: Selection, depth: nat) returns (path: seq<nat>)
    requires depth > 0
    ensures Depth(s, depth) > 0 ==>
              && depth + |path| == Depth(s, depth)
              && if path == [] then s.FieldSel? else LeadsToField(Children(s), path)
    decreases s, 0
  {
    path := [];
    match s {
      case FieldSel(f) =>
        if Depths(f.selections, depth + 1) > depth {
          path := SomePathIsAsLong(f.selections, depth + 1);
        }
      case InlineFragment(_, _, body) =>
        path := SomePathIsAsLong(body, depth + 1);
      case FragmentSpread(_, _) =>
    }
  }

  /** The depth of a query is the length of the longest path to a field, fragments included. */
  lemma DepthIsTheLongestPath(sels: seq<Selection>)
    ensures forall path :: LeadsToField(sels, path) ==> |path| <= Depths(sels, 1)
    ensures Depths(sels, 1) > 0 ==> exists path :: LeadsToField(sels, path) && |path| == Depths(sels, 1)
  {
    hide LeadsToField;
    forall path | LeadsToField(sels, path) ensures |path| <= Depths(sels, 1) {
      NoPathIsLonger(sels, 1, path);
    }
    var path := SomePathIsAsLong(sels, 1);
  }

  /**
   * Without overrides an operation is refused for its depth when a field stands deeper than allowed, and
   * else for its cost when its fields and spreads, with 30 more for a mutation, cost more than allowed;
   * what is reported is the length of the longest path and the cost, cut off at the largest 32-bit number.
   */
  lemma AnalyzedByShape(document: Document, operationName: Option<string>, maxDepth: nat, maxCost: u32, op: Operation)
    requires PickOperation(document, operationName) == Plan(op) && !op.operationType.Subscription?
    ensures var r, depth := Analyzed(document, operationName, map[], maxDepth, maxCost), Depths(op.selections, 1);
      var cost := Priced(AllNodes(op.selections)) + if op.operationType.Mutation? then 30 else 0;
      var shown := if cost > U32_MAX then U32_MAX else cost;
      if exists path :: LeadsToField(op.selections, path) && |path| > maxDepth
      then r == Rejected(DepthExceeded(depth, maxDepth))
      else if shown > maxCost then r == Rejected(CostExceeded(shown, maxCost))
      else r == Report(depth, shown)
  {
    DepthIsTheLongestPath(op.selections);
    CostCounts(op.selections, RootLabel(op.operationType));
    hide PickOperation, LeadsToField, Priced, AllNodes, ExactCosts, Depths;
  }
}
