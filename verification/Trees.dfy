/** How extraction, merging and stripping act on the completed value of a resolver's result. */
module Trees {
  import opened Ast
  import opened Responses
  import opened Executor
  import opened Merge
  import opened Evaluation

  /** The shape of `r` with the object `id` completed to `g(id)`. */
  ghost function Tree(r: Resolved, g: int -> map<string, Json>): Json {
    match r
    case Absent => Null
    case Scalar(a) => Leaf(a)
    case Many(items) => Array(Forest(items, g))
    case Entity(id) => Object(g(id))
  }

  ghost function Forest(rs: seq<Resolved>, g: int -> map<string, Json>): seq<Json> {
    if rs == [] then [] else [Tree(rs[0], g)] + Forest(rs[1..], g)
  }

  /** The objects of `r`, depth first. */
  ghost function Ids(r: Resolved): seq<int> {
    match r
    case Many(items) => IdsOf(items)
    case Entity(id) => [id]
    case _ => []
  }

  ghost function IdsOf(rs: seq<Resolved>): seq<int> {
    if rs == [] then [] else Ids(rs[0]) + IdsOf(rs[1..])
  }

  lemma {:induction false} TreesEqual(r: Resolved, g: int -> map<string, Json>, h: int -> map<string, Json>)
    requires forall id :: id in Ids(r) ==> g(id) == h(id)
    ensures Tree(r, g) == Tree(r, h)
    decreases r
  {
    if r.Many? {
      ForestsEqual(r.items, g, h);
    }
  }

  lemma {:induction false} ForestsEqual(rs: seq<Resolved>, g: int -> map<string, Json>, h: int -> map<string, Json>)
    requires forall id :: id in IdsOf(rs) ==> g(id) == h(id)
    ensures Forest(rs, g) == Forest(rs, h)
    decreases rs
  {
    if rs != [] {
      TreesEqual(rs[0], g, h);
      ForestsEqual(rs[1..], g, h);
    }
  }

  lemma {:induction false} CompletesToTree(w: World, sg: string, vars: map<string, Json>, r: Resolved,
                                           sels: seq<Selection>)
    ensures Complete(w, sg, vars, r, sels) == Tree(r, id => ExecuteSelections(w, sg, vars, id, sels))
    decreases r
  {
    if r.Many? {
      CompletesToForest(w, sg, vars, r.items, sels);
    }
  }

  lemma {:induction false} CompletesToForest(w: World, sg: string, vars: map<string, Json>, rs: seq<Resolved>,
                                             sels: seq<Selection>)
    ensures CompleteAll(w, sg, vars, rs, sels) == Forest(rs, id => ExecuteSelections(w, sg, vars, id, sels))
    decreases rs
  {
    if rs != [] {
      CompletesToTree(w, sg, vars, rs[0], sels);
      CompletesToForest(w, sg, vars, rs[1..], sels);
    }
  }

  ghost function KeysOf(ids: seq<int>, keyOf: int -> Atom): (r: seq<Json>)
    ensures |r| == |ids| && forall i :: 0 <= i < |r| ==> r[i] == Leaf(keyOf(ids[i]))
  {
    if ids == [] then [] else [Leaf(keyOf(ids[0]))] + KeysOf(ids[1..], keyOf)
  }

  lemma {:induction false} TreeRefs(r: Resolved, g: int -> map<string, Json>, key: string, keyOf: int -> Atom)
    requires forall id :: id in Ids(r) ==> key in g(id) && g(id)[key] == Leaf(keyOf(id))
    ensures Refs(Tree(r, g), key) == KeysOf(Ids(r), keyOf)
    decreases r
  {
    match r
    case Many(items) => ForestRefs(items, g, key, keyOf);
    case Entity(id) => assert id in Ids(r);
    case _ =>
  }

  lemma KeysAppend(a: seq<int>, b: seq<int>, keyOf: int -> Atom)
    ensures KeysOf(a + b, keyOf) == KeysOf(a, keyOf) + KeysOf(b, keyOf)
  {
  }

  lemma {:induction false} ForestRefs(rs: seq<Resolved>, g: int -> map<string, Json>, key: string, keyOf: int -> Atom)
    requires forall id :: id in IdsOf(rs) ==> key in g(id) && g(id)[key] == Leaf(keyOf(id))
    ensures RefsOfItems(Forest(rs, g), key) == KeysOf(IdsOf(rs), keyOf)
    decreases rs
  {
    if rs != [] {
      TreeRefs(rs[0], g, key, keyOf);
      ForestRefs(rs[1..], g, key, keyOf);
      KeysAppend(Ids(rs[0]), IdsOf(rs[1..]), keyOf);
    }
  }

  /** Entity `idx + k` holds what is to be added to the k-th object. */
  ghost predicate Holds(entities: seq<Json>, idx: nat, ids: seq<int>, h: int -> map<string, Json>) {
    idx + |ids| <= |entities| && forall k :: 0 <= k < |ids| ==> entities[idx + k] == Object(h(ids[k]))
  }

  lemma {:induction false} TreeMerges(r: Resolved, g: int -> map<string, Json>, h: int -> map<string, Json>,
                                      entities: seq<Json>, idx: nat)
    requires Holds(entities, idx, Ids(r), h)
    ensures Merged(Tree(r, g), entities, idx) == (Tree(r, id => g(id) + h(id)), idx + |Ids(r)|)
    decreases r
  {
    match r
    case Many(items) => ForestMerges(items, g, h, entities, idx);
    case Entity(id) => assert entities[idx + 0] == Object(h(Ids(r)[0]));
    case _ =>
  }

  lemma {:induction false} ForestMerges(rs: seq<Resolved>, g: int -> map<string, Json>, h: int -> map<string, Json>,
                                        entities: seq<Json>, idx: nat)
    requires Holds(entities, idx, IdsOf(rs), h)
    ensures MergedItems(Forest(rs, g), entities, idx) == (Forest(rs, id => g(id) + h(id)), idx + |IdsOf(rs)|)
    decreases rs
  {
    if rs != [] {
      var n := |Ids(rs[0])|;
      HoldsSplits(entities, idx, Ids(rs[0]), IdsOf(rs[1..]), h);
      TreeMerges(rs[0], g, h, entities, idx);
      ForestMerges(rs[1..], g, h, entities, idx + n);
    }
  }

  lemma HoldsSplits(entities: seq<Json>, idx: nat, a: seq<int>, b: seq<int>, h: int -> map<string, Json>)
    requires Holds(entities, idx, a + b, h)
    ensures Holds(entities, idx, a, h) && Holds(entities, idx + |a|, b, h)
  {
    assert forall k :: 0 <= k < |a| ==> (a + b)[k] == a[k];
    forall k | 0 <= k < |b| ensures entities[idx + |a| + k] == Object(h(b[k])) {
      assert (a + b)[|a| + k] == b[k];
      assert entities[idx + (|a| + k)] == Object(h((a + b)[|a| + k]));
    }
  }

  function StrippedFields(fields: map<string, Json>, drops: set<string>): map<string, Json> {
    map k | k in fields && k !in drops :: Stripped(fields[k], drops)
  }

  lemma {:induction false} TreeStrips(r: Resolved, g: int -> map<string, Json>, drops: set<string>)
    ensures Stripped(Tree(r, g), drops) == Tree(r, id => StrippedFields(g(id), drops))
    decreases r
  {
    if r.Many? {
      ForestStrips(r.items, g, drops);
    }
  }

  lemma {:induction false} ForestStrips(rs: seq<Resolved>, g: int -> map<string, Json>, drops: set<string>)
    ensures StrippedItems(Forest(rs, g), drops) == Forest(rs, id => StrippedFields(g(id), drops))
    decreases rs
  {
    if rs != [] {
      TreeStrips(rs[0], g, drops);
      ForestStrips(rs[1..], g, drops);
    }
  }
}
