/**
 * The executor extracts references and the merger folds entities back over the same value,
 * each with its own walk. These lemmas say when the k-th of the one is the k-th of the other.
 */
module Alignment {
  import opened Responses
  import opened Executor
  import opened Merge

  /** The objects that the merger visits, in its order. */
  function Objects(value: Json): seq<map<string, Json>> {
    match value
    case Array(items) => ObjectsOfItems(items)
    case Object(fields) => [fields]
    case _ => []
  }

  function ObjectsOfItems(items: seq<Json>): seq<map<string, Json>> {
    if items == [] then [] else Objects(items[0]) + ObjectsOfItems(items[1..])
  }

  /** Everything but the contents of those objects. */
  function Skeleton(value: Json): Json {
    match value
    case Array(items) => Array(SkeletonOfItems(items))
    case Object(_) => Object(map[])
    case _ => value
  }

  function SkeletonOfItems(items: seq<Json>): seq<Json> {
    if items == [] then [] else [Skeleton(items[0])] + SkeletonOfItems(items[1..])
  }

  /** Merging enriches the k-th object with the k-th entity, and changes nothing else. */
  lemma {:induction false} MergeEnrichesByIndex(value: Json, entities: seq<Json>, idx: nat)
    ensures var (value', idx') := Merged(value, entities, idx);
      && idx' == idx + |Objects(value)|
      && |Objects(value')| == |Objects(value)|
      && (forall k :: 0 <= k < |Objects(value)| ==>
            Objects(value')[k] == Enrich(Objects(value)[k], entities, idx + k))
      && Skeleton(value') == Skeleton(value)
    decreases value
  {
    if value.Array? {
      ItemsEnrichByIndex(value.items, entities, idx);
    }
  }

  lemma {:induction false} ItemsEnrichByIndex(items: seq<Json>, entities: seq<Json>, idx: nat)
    ensures var (items', idx') := MergedItems(items, entities, idx);
      && idx' == idx + |ObjectsOfItems(items)|
      && |ObjectsOfItems(items')| == |ObjectsOfItems(items)|
      && (forall k :: 0 <= k < |ObjectsOfItems(items)| ==>
            ObjectsOfItems(items')[k] == Enrich(ObjectsOfItems(items)[k], entities, idx + k))
      && SkeletonOfItems(items') == SkeletonOfItems(items)
    decreases items
  {
    if items != [] {
      MergeEnrichesByIndex(items[0], entities, idx);
      var (first, idx') := Merged(items[0], entities, idx);
      ItemsEnrichByIndex(items[1..], entities, idx');
      var rest := MergedItems(items[1..], entities, idx').0;
      assert ([first] + rest)[1..] == rest;
      hide Enrich, Objects, Skeleton, Merged;
      forall k | 0 <= k < |ObjectsOfItems(items)|
        ensures ObjectsOfItems([first] + rest)[k] == Enrich(ObjectsOfItems(items)[k], entities, idx + k)
      {
        var n := |Objects(items[0])|;
        if k >= n {
          assert ObjectsOfItems(items)[k] == ObjectsOfItems(items[1..])[k - n];
          assert idx' + (k - n) == idx + k;
        }
      }
    }
  }

  /** For each reference, the position of the object it was taken from. */
  function RefPositions(objects: seq<map<string, Json>>, key: string, from: nat): seq<nat> {
    if objects == [] then []
    else (if key in objects[0] then [from] else []) + RefPositions(objects[1..], key, from + 1)
  }

  function KeyValues(objects: seq<map<string, Json>>, key: string): seq<Json> {
    if objects == [] then []
    else (if key in objects[0] then [objects[0][key]] else []) + KeyValues(objects[1..], key)
  }

  lemma {:induction false} KeyValuesAppend(a: seq<map<string, Json>>, b: seq<map<string, Json>>, key: string)
    ensures KeyValues(a + b, key) == KeyValues(a, key) + KeyValues(b, key)
  {
    if a == [] {
      assert a + b == b;
    } else {
      assert (a + b)[0] == a[0] && (a + b)[1..] == a[1..] + b;
      KeyValuesAppend(a[1..], b, key);
    }
  }

  lemma {:induction false} RefsAreKeyValues(value: Json, key: string)
    ensures Refs(value, key) == KeyValues(Objects(value), key)
    decreases value
  {
    match value
    case Array(items) => ItemRefsAreKeyValues(items, key);
    case Object(fields) =>
      assert [fields][1..] == [] && KeyValues([], key) == [];
    case _ =>
  }

  lemma {:induction false} ItemRefsAreKeyValues(items: seq<Json>, key: string)
    ensures RefsOfItems(items, key) == KeyValues(ObjectsOfItems(items), key)
    decreases items
  {
    if items != [] {
      RefsAreKeyValues(items[0], key);
      ItemRefsAreKeyValues(items[1..], key);
      KeyValuesAppend(Objects(items[0]), ObjectsOfItems(items[1..]), key);
    }
  }

  lemma {:induction false} PositionsOfKeyValues(objects: seq<map<string, Json>>, key: string, from: nat)
    ensures var ps := RefPositions(objects, key, from);
      && |ps| == |KeyValues(objects, key)|
      && forall k :: 0 <= k < |ps| ==>
           && from <= ps[k] < from + |objects| && key in objects[ps[k] - from]
           && KeyValues(objects, key)[k] == objects[ps[k] - from][key]
  {
    if objects != [] {
      PositionsOfKeyValues(objects[1..], key, from + 1);
      var n := if key in objects[0] then 1 else 0;
      forall k | 0 <= k < |RefPositions(objects, key, from)|
        ensures var p := RefPositions(objects, key, from)[k];
          && from <= p < from + |objects| && key in objects[p - from]
          && KeyValues(objects, key)[k] == objects[p - from][key]
      {
        if k >= n {
          var p := RefPositions(objects[1..], key, from + 1)[k - n];
          assert objects[1..][p - from - 1] == objects[p - from];
        }
      }
    }
  }

  /** The k-th reference is the key of the object at the k-th reference position. */
  lemma RefsComeFromTheirPositions(value: Json, key: string)
    ensures var ps := RefPositions(Objects(value), key, 0);
      && |ps| == |Refs(value, key)|
      && forall k :: 0 <= k < |ps| ==>
           && ps[k] < |Objects(value)| && key in Objects(value)[ps[k]]
           && Refs(value, key)[k] == Objects(value)[ps[k]][key]
  {
    RefsAreKeyValues(value, key);
    PositionsOfKeyValues(Objects(value), key, 0);
  }

  /** No object without the key comes before one that has it. */
  predicate KeyedFirst(objects: seq<map<string, Json>>, key: string) {
    forall i, j :: 0 <= i < j < |objects| && key in objects[j] ==> key in objects[i]
  }

  lemma KeyedFirstStep(objects: seq<map<string, Json>>, key: string)
    requires objects != []
    ensures KeyedFirst(objects, key)
       <==> if key in objects[0] then KeyedFirst(objects[1..], key)
            else forall i :: 0 <= i < |objects[1..]| ==> key !in objects[1..][i]
  {
    var rest := objects[1..];
    assert forall i :: 1 <= i < |objects| ==> objects[i] == rest[i - 1];
    assert forall i :: 0 <= i < |rest| ==> rest[i] == objects[i + 1];
  }

  /** The positions are `from`, `from + 1`, and so on. */
  predicate Consecutive(ps: seq<nat>, from: nat) {
    forall k :: 0 <= k < |ps| ==> ps[k] == from + k
  }

  lemma ConsecutiveStep(ps: seq<nat>, from: nat)
    ensures Consecutive([from] + ps, from) <==> Consecutive(ps, from + 1)
  {
    var qs := [from] + ps;
    if Consecutive(qs, from) {
      forall k | 0 <= k < |ps| ensures ps[k] == from + 1 + k { assert qs[k + 1] == ps[k]; }
    }
  }

  lemma {:induction false} PositionsAscend(objects: seq<map<string, Json>>, key: string, from: nat)
    ensures Consecutive(RefPositions(objects, key, from), from) <==> KeyedFirst(objects, key)
  {
    hide KeyedFirst, KeyValues, Consecutive;
    if objects == [] {
      NothingAscends(key, from);
    } else {
      var rest := objects[1..];
      KeyedFirstStep(objects, key);
      if key in objects[0] {
        PositionsAscend(rest, key, from + 1);
        ConsecutiveStep(RefPositions(rest, key, from + 1), from);
      } else {
        LateStart(rest, key, from);
        assert RefPositions(objects, key, from) == RefPositions(rest, key, from + 1);
      }
    }
  }

  lemma NothingAscends(key: string, from: nat)
    ensures Consecutive(RefPositions([], key, from), from) && KeyedFirst([], key)
  {
  }

  lemma LateStart(rest: seq<map<string, Json>>, key: string, from: nat)
    ensures Consecutive(RefPositions(rest, key, from + 1), from)
       <==> forall i :: 0 <= i < |rest| ==> key !in rest[i]
  {
    var ps := RefPositions(rest, key, from + 1);
    PositionsOfKeyValues(rest, key, from + 1);
    hide RefPositions;
    if ps == [] {
      NoPositions(rest, key, from + 1);
    } else {
      assert ps[0] >= from + 1 && key in rest[ps[0] - from - 1];
      assert ps[0] != from + 0;
    }
  }

  lemma {:induction false} AllKeyed(objects: seq<map<string, Json>>, key: string)
    requires forall i :: 0 <= i < |objects| ==> key in objects[i]
    ensures |KeyValues(objects, key)| == |objects|
    ensures forall k :: 0 <= k < |objects| ==> KeyValues(objects, key)[k] == objects[k][key]
  {
    if objects != [] {
      AllKeyed(objects[1..], key);
    }
  }

  lemma {:induction false} NoPositions(objects: seq<map<string, Json>>, key: string, from: nat)
    requires RefPositions(objects, key, from) == []
    ensures forall i :: 0 <= i < |objects| ==> key !in objects[i]
  {
    if objects != [] {
      NoPositions(objects[1..], key, from + 1);
      assert forall i :: 1 <= i < |objects| ==> objects[i] == objects[1..][i - 1];
    }
  }

  /**
   * The k-th reference and the k-th enriched object are the same object, for every k, exactly
   * when no object without the key comes before a keyed one.
   */
  lemma AlignedExactlyWhenKeyedFirst(value: Json, key: string)
    ensures Consecutive(RefPositions(Objects(value), key, 0), 0) <==> KeyedFirst(Objects(value), key)
  {
    PositionsAscend(Objects(value), key, 0);
  }

  /** If every object reached carries the key, there is one reference per object, in the same order. */
  lemma AlignedWhenAllKeyed(value: Json, key: string)
    requires forall i :: 0 <= i < |Objects(value)| ==> key in Objects(value)[i]
    ensures |Refs(value, key)| == |Objects(value)|
    ensures forall k :: 0 <= k < |Objects(value)| ==> Refs(value, key)[k] == Objects(value)[k][key]
  {
    RefsAreKeyValues(value, key);
    AllKeyed(Objects(value), key);
  }
}
