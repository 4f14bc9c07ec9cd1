/** Query depth and complexity limits (limits/cost.rs). */
module Cost {
  import opened Common
  import opened Ast
  import opened Planner

  const I32_MAX: nat := 0x7FFF_FFFF

  function SaturatingAdd(a: u32, b: u32): u32 { if a + b > U32_MAX then U32_MAX else a + b }

  function Saturate(n: nat): u32 { if n > U32_MAX then U32_MAX else n }

  function Max(a: nat, b: nat): nat { if a < b then b else a }

  /** An override replaces the base cost, clamped to the non-negative 32-bit integers. */
  function FieldCost(overrides: map<string, int>, parent: string, name: string): u32 {
    var key := parent + "." + name;
    if key in overrides then
      if overrides[key] < 0 then 0 else if overrides[key] > I32_MAX then I32_MAX else overrides[key]
    else if Contains(name, "search") then 20 else 1
  }

  // ---- the specification: exact cost and depth ------------------------------------------

  function ExactCost(s: Selection, overrides: map<string, int>, parent: string): nat {
    match s
    case FieldSel(f) =>
      var base := FieldCost(overrides, parent, f.name);
      if f.selections == [] then base
      else base + 3 + (if LooksLikeList(f.name) then 5 else 0) + ExactCosts(f.selections, overrides, parent)
    case InlineFragment(_, _, body) => ExactCosts(body, overrides, parent)
    case FragmentSpread(_, _) => 1
  }

  function ExactCosts(sels: seq<Selection>, overrides: map<string, int>, parent: string): nat {
    if sels == [] then 0 else ExactCost(sels[0], overrides, parent) + ExactCosts(sels[1..], overrides, parent)
  }

  /** The deepest field in a selection that stands at the given depth; only fields count. */
  function Depth(s: Selection, depth: nat): nat {
    match s
    case FieldSel(f) => Max(depth, Depths(f.selections, depth + 1))
    case InlineFragment(_, _, body) => Depths(body, depth + 1)
    case FragmentSpread(_, _) => 0
  }

  function Depths(sels: seq<Selection>, depth: nat): nat {
    if sels == [] then 0 else Max(Depth(sels[0], depth), Depths(sels[1..], depth))
  }

  lemma {:induction false} CostsAppend(a: seq<Selection>, b: seq<Selection>, overrides: map<string, int>,
                                       parent: string)
    ensures ExactCosts(a + b, overrides, parent) == ExactCosts(a, overrides, parent) + ExactCosts(b, overrides, parent)
  {
    if a == [] {
      assert a + b == b;
    } else {
      assert (a + b)[0] == a[0] && (a + b)[1..] == a[1..] + b;
      CostsAppend(a[1..], b, overrides, parent);
    }
  }

  lemma {:induction false} DepthsAppend(a: seq<Selection>, b: seq<Selection>, depth: nat)
    ensures Depths(a + b, depth) == Max(Depths(a, depth), Depths(b, depth))
  {
    if a == [] {
      assert a + b == b;
    } else {
      assert (a + b)[0] == a[0] && (a + b)[1..] == a[1..] + b;
      DepthsAppend(a[1..], b, depth);
    }
  }

  lemma OneSelection(s: Selection, overrides: map<string, int>, parent: string, depth: nat)
    ensures ExactCosts([s], overrides, parent) == ExactCost(s, overrides, parent)
    ensures Depths([s], depth) == Depth(s, depth)
  {
    assert [s][1..] == [] && ExactCosts([], overrides, parent) == 0 && Depths([], depth) == 0;
  }

  // ---- the walk --------------------------------------------------------------------------

  class Ctx {
    const overrides: map<string, int>
    const parentType: string
    var depthSeen: nat
    var cost: u32

    constructor (overrides: map<string, int>, parentType: string)
      ensures this.overrides == overrides && this.parentType == parentType
      ensures depthSeen == 0 && cost == 0
    {
      this.overrides, this.parentType := overrides, parentType;
      depthSeen, cost := 0, 0;
    }

    /** The saturating walk adds the exact cost, cut off at the largest 32-bit value. */
    method WalkSelection(s: Selection, depth: nat)
      modifies this
      ensures depthSeen == Max(old(depthSeen), Depth(s, depth))
      ensures cost == Saturate(old(cost) + ExactCost(s, overrides, parentType))
      decreases s
    {
      match s {
        case FieldSel(f) =>
          depthSeen := Max(depthSeen, depth);
          var fieldCost := FieldCost(overrides, parentType, f.name);
          if f.selections == [] {
            cost := SaturatingAdd(cost, fieldCost);
            return;
          }
          cost := SaturatingAdd(cost, SaturatingAdd(fieldCost, 3));
          if LooksLikeList(f.name) {
            cost := SaturatingAdd(cost, 5);
          }
          WalkAll(f.selections, depth + 1);
        case InlineFragment(_, _, body) =>
          WalkAll(body, depth + 1);
        case FragmentSpread(_, _) =>
          cost := SaturatingAdd(cost, 1);
      }
    }

    method WalkAll(sels: seq<Selection>, depth: nat)
      modifies this
      ensures depthSeen == Max(old(depthSeen), Depths(sels, depth))
      ensures cost == Saturate(old(cost) + ExactCosts(sels, overrides, parentType))
      decreases sels
    {
      for i := 0 to |sels|
        invariant depthSeen == Max(old(depthSeen), Depths(sels[..i], depth))
        invariant cost == Saturate(old(cost) + ExactCosts(sels[..i], overrides, parentType))
      {
        WalkSelection(sels[i], depth);
        assert sels[..i + 1] == sels[..i] + [sels[i]];
        CostsAppend(sels[..i], [sels[i]], overrides, parentType);
        DepthsAppend(sels[..i], [sels[i]], depth);
        OneSelection(sels[i], overrides, parentType, depth);
      }
      assert sels[..|sels|] == sels;
    }
  }

  // ---- analyze -----------------------------------------------------------------------------

  datatype CostError =
    | NotPlannable(error: PlanError)
    | DepthExceeded(depth: nat, maxDepth: nat)
    | CostExceeded(cost: u32, maxCost: u32)
    | SubscriptionBlocked

  datatype CostResult = Report(depth: nat, cost: u32) | Rejected(error: CostError)

  /** Mutations carry a surcharge. */
  function OperationCost(op: Operation, overrides: map<string, int>): nat {
    ExactCosts(op.selections, overrides, RootLabel(op.operationType)) + if op.operationType.Mutation? then 30 else 0
  }

  function Analyzed(document: Document, operationName: Option<string>, overrides: map<string, int>, maxDepth: nat,
                    maxCost: u32): CostResult {
    match PickOperation(document, operationName)
    case Refused(e) => Rejected(NotPlannable(e))
    case Plan(op) =>
      if op.operationType.Subscription? then Rejected(SubscriptionBlocked)
      else
        var depth, cost := Depths(op.selections, 1), Saturate(OperationCost(op, overrides));
        if depth > maxDepth then Rejected(DepthExceeded(depth, maxDepth))
        else if cost > maxCost then Rejected(CostExceeded(cost, maxCost))
        else Report(depth, cost)
  }

  method Analyze(document: Document, operationName: Option<string>, overrides: map<string, int>, maxDepth: nat,
                 maxCost: u32)
    returns (r: CostResult)
    ensures r == Analyzed(document, operationName, overrides, maxDepth, maxCost)
  {
    var picked := PickOperation(document, operationName);
    match picked {
      case Refused(e) => return Rejected(NotPlannable(e));
      case Plan(op) =>
        if op.operationType.Subscription? {
          return Rejected(SubscriptionBlocked);
        }
        var ctx := new Ctx(overrides, RootLabel(op.operationType));
        ctx.WalkAll(op.selections, 1);
        if op.operationType.Mutation? {
          ctx.cost := SaturatingAdd(ctx.cost, 30);
        }
        if ctx.depthSeen > maxDepth {
          return Rejected(DepthExceeded(ctx.depthSeen, maxDepth));
        }
        if ctx.cost > maxCost {
          return Rejected(CostExceeded(ctx.cost, maxCost));
        }
        return Report(ctx.depthSeen, ctx.cost);
    }
  }

  /**
   * A document is accepted exactly when its depth and its exact cost are within the limits; at the
   * largest 32-bit limit the saturated cost can no longer exceed it, and only the depth decides.
   */
  lemma AcceptedExactly(document: Document, operationName: Option<string>, overrides: map<string, int>, maxDepth: nat,
                        maxCost: u32, op: Operation)
    requires PickOperation(document, operationName) == Plan(op) && !op.operationType.Subscription?
    ensures Analyzed(document, operationName, overrides, maxDepth, maxCost).Report?
       <==> Depths(op.selections, 1) <= maxDepth && (OperationCost(op, overrides) <= maxCost || maxCost == U32_MAX)
  {
  }

  // ---- order and growth -------------------------------------------------------------------

  /** The list read around one of its members. */
  lemma AroundOne(x: seq<Selection>, s: Selection, y: seq<Selection>, overrides: map<string, int>, parent: string,
                  depth: nat)
    ensures ExactCosts(x + ([s] + y), overrides, parent)
         == ExactCosts(x, overrides, parent) + ExactCost(s, overrides, parent) + ExactCosts(y, overrides, parent)
    ensures Depths(x + ([s] + y), depth) == Max(Depths(x, depth), Max(Depth(s, depth), Depths(y, depth)))
  {
    hide ExactCost, ExactCosts, Depth, Depths;
    CostsAppend(x, [s] + y, overrides, parent);
    CostsAppend([s], y, overrides, parent);
    DepthsAppend(x, [s] + y, depth);
    DepthsAppend([s], y, depth);
    OneSelection(s, overrides, parent, depth);
  }

  lemma WithoutOne(a: seq<Selection>, b: seq<Selection>, k: nat)
    requires a != [] && k < |b| && b[k] == a[0] && multiset(a) == multiset(b)
    ensures b == b[..k] + ([a[0]] + b[k + 1..])
    ensures multiset(a[1..]) == multiset(b[..k] + b[k + 1..])
  {
    var s, b0, b1 := a[0], b[..k], b[k + 1..];
    assert a == [s] + a[1..] && b == b0 + ([s] + b1);
    assert multiset(a) == multiset{s} + multiset(a[1..]);
    assert multiset(b0 + ([s] + b1)) == multiset(b0) + multiset{s} + multiset(b1);
    assert multiset(b) == multiset{s} + multiset(b0 + b1);
    assert multiset(a[1..]) == multiset(a) - multiset{s};
  }

  /** Cost and depth of a selection list do not depend on the order of the siblings. */
  lemma {:induction false} SiblingOrderIsIrrelevant(a: seq<Selection>, b: seq<Selection>, overrides: map<string, int>,
                                                    parent: string, depth: nat)
    requires multiset(a) == multiset(b)
    ensures ExactCosts(a, overrides, parent) == ExactCosts(b, overrides, parent)
    ensures Depths(a, depth) == Depths(b, depth)
    decreases a
  {
    hide ExactCost, ExactCosts, Depth, Depths;
    if a == [] {
      assert |multiset(b)| == 0;
      assert b == [];
    } else {
      var s := a[0];
      assert s in multiset(b);
      var k :| 0 <= k < |b| && b[k] == s;
      WithoutOne(a, b, k);
      SiblingOrderIsIrrelevant(a[1..], b[..k] + b[k + 1..], overrides, parent, depth);
      AroundOne([], s, a[1..], overrides, parent, depth);
      assert a == [] + ([s] + a[1..]);
      NoSelections(overrides, parent, depth);
      AroundOne(b[..k], s, b[k + 1..], overrides, parent, depth);
      CostsAppend(b[..k], b[k + 1..], overrides, parent);
      DepthsAppend(b[..k], b[k + 1..], depth);
    }
  }

  lemma NoSelections(overrides: map<string, int>, parent: string, depth: nat)
    ensures ExactCosts([], overrides, parent) == 0 && Depths([], depth) == 0
  {
  }

  /** `b` is `a` with one selection put in at `k`. */
  predicate InsertedAt(a: seq<Selection>, b: seq<Selection>, k: nat) {
    k <= |a| && |b| == |a| + 1 && b == a[..k] + [b[k]] + a[k..]
  }

  /** `b` is `a` with one selection added to it or somewhere inside it. */
  ghost predicate Grown(a: seq<Selection>, b: seq<Selection>)
    decreases a
  {
    || (exists k: nat :: InsertedAt(a, b, k))
    || (|a| == |b| && exists i :: 0 <= i < |a| && b == a[i := b[i]] && GrownSelection(a[i], b[i]))
  }

  ghost predicate GrownSelection(s: Selection, t: Selection)
    decreases s
  {
    match (s, t)
    case (FieldSel(f), FieldSel(g)) => g == f.(selections := g.selections) && Grown(f.selections, g.selections)
    case (InlineFragment(c, ds, body), InlineFragment(c', ds', body')) => c == c' && ds == ds' && Grown(body, body')
    case _ => false
  }

  lemma InsertionNeverLowers(a: seq<Selection>, b: seq<Selection>, k: nat, overrides: map<string, int>,
                             parent: string, depth: nat)
    requires InsertedAt(a, b, k)
    ensures |a| <= |b|
    ensures ExactCosts(a, overrides, parent) <= ExactCosts(b, overrides, parent)
    ensures Depths(a, depth) <= Depths(b, depth)
  {
    hide ExactCost, ExactCosts, Depth, Depths;
    var x, y := a[..k], a[k..];
    assert a == x + y && b == x + ([b[k]] + y);
    AroundOne(x, b[k], y, overrides, parent, depth);
    CostsAppend(x, y, overrides, parent);
    DepthsAppend(x, y, depth);
  }

  lemma ReplacementNeverLowers(a: seq<Selection>, i: nat, s: Selection, overrides: map<string, int>, parent: string,
                               depth: nat)
    requires i < |a|
    requires ExactCost(a[i], overrides, parent) <= ExactCost(s, overrides, parent)
             && Depth(a[i], depth) <= Depth(s, depth)
    ensures ExactCosts(a, overrides, parent) <= ExactCosts(a[i := s], overrides, parent)
    ensures Depths(a, depth) <= Depths(a[i := s], depth)
  {
    hide ExactCost, ExactCosts, Depth, Depths;
    var x, t, y := a[..i], a[i], a[i + 1..];
    assert a == x + ([t] + y);
    assert a[i := s] == x + ([s] + y);
    AroundOne(x, t, y, overrides, parent, depth);
    AroundOne(x, s, y, overrides, parent, depth);
  }

  /** Adding a selection, at any place and depth, lowers neither cost nor depth. */
  lemma {:induction false} GrowthNeverLowers(a: seq<Selection>, b: seq<Selection>, overrides: map<string, int>,
                                             parent: string, depth: nat)
    requires Grown(a, b)
    ensures |a| <= |b|
    ensures ExactCosts(a, overrides, parent) <= ExactCosts(b, overrides, parent)
    ensures Depths(a, depth) <= Depths(b, depth)
    decreases a
  {
    hide ExactCost, ExactCosts, Depth, Depths, GrownSelection, InsertedAt;
    if k: nat :| InsertedAt(a, b, k) {
      InsertionNeverLowers(a, b, k, overrides, parent, depth);
    } else {
      var i :| 0 <= i < |a| && b == a[i := b[i]] && GrownSelection(a[i], b[i]);
      GrownSelectionNeverLowers(a[i], b[i], overrides, parent, depth);
      ReplacementNeverLowers(a, i, b[i], overrides, parent, depth);
    }
  }

  lemma {:induction false} GrownSelectionNeverLowers(s: Selection, t: Selection, overrides: map<string, int>,
                                                     parent: string, depth: nat)
    requires GrownSelection(s, t)
    ensures ExactCost(s, overrides, parent) <= ExactCost(t, overrides, parent)
    ensures Depth(s, depth) <= Depth(t, depth)
    decreases s
  {
    hide FieldCost, LooksLikeList, Grown;
    match (s, t)
    case (FieldSel(f), FieldSel(g)) => GrowthNeverLowers(f.selections, g.selections, overrides, parent, depth + 1);
    case (InlineFragment(_, _, body), InlineFragment(_, _, body')) =>
      GrowthNeverLowers(body, body', overrides, parent, depth + 1);
  }
}
