/** The supergraph catalogue: which subgraph owns each type and field (supergraph/catalog.rs). */
module Catalog {
  import opened Common
  import opened Ast
  import opened Fetches
  import opened Joins

  datatype EntityExtender = EntityExtender(subgraph: string, fields: seq<string>)

  datatype EntityType = EntityType(
    name: string,
    keyFields: seq<string>,
    owner: string,
    extenders: seq<EntityExtender>,
    fieldOwners: map<string, string>)

  datatype SupergraphCatalog = SupergraphCatalog(
    subgraphs: map<string, Route>,
    rootQueryFields: map<string, string>,
    rootMutationFields: map<string, string>,
    entityTypes: map<string, EntityType>,
    fieldCostOverrides: map<string, int>)

  /** A field or type definition with its directives; the rest of the schema text plays no part. */
  datatype FieldDefinition = FieldDefinition(name: string, directives: seq<Directive>)

  datatype ObjectType = ObjectType(name: string, directives: seq<Directive>, fields: seq<FieldDefinition>)

  datatype CatalogResult<+T> = Accepted(value: T) | Rejected(reason: string)

  // ---- fields of one type ------------------------------------------------------------

  /** Each extender's list holds, in order, the fields it owns; only the first entry of a subgraph is used. */
  function FieldsOf(fields: seq<FieldDefinition>, lookup: map<string, string>, owner: string,
                    subgraph: string): seq<string> {
    if fields == [] then []
    else
      var last := fields[|fields| - 1];
      FieldsOf(fields[..|fields| - 1], lookup, owner, subgraph)
      + if ResolvedOwner(last.directives, lookup, owner) == subgraph then [last.name] else []
  }

  /** No later field has the same name. */
  predicate IsLast(fields: seq<FieldDefinition>, i: nat)
    requires i < |fields|
  {
    forall j :: i < j < |fields| ==> fields[j].name != fields[i].name
  }

  /** The names of the fields, and nothing else, have an owner recorded: that of the last field of the name. */
  predicate ResolvesLast(fieldOwners: map<string, string>, fields: seq<FieldDefinition>, lookup: map<string, string>,
                         owner: string) {
    && (forall f :: f in fieldOwners ==> exists i :: 0 <= i < |fields| && fields[i].name == f)
    && (forall i :: 0 <= i < |fields| ==> fields[i].name in fieldOwners)
    && (forall i :: 0 <= i < |fields| && IsLast(fields, i) ==>
          fieldOwners[fields[i].name] == ResolvedOwner(fields[i].directives, lookup, owner))
  }

  /** Every field, and nothing else, has its resolved owner recorded. */
  predicate ResolvesAll(fieldOwners: map<string, string>, fields: seq<FieldDefinition>, lookup: map<string, string>,
                        owner: string) {
    && (forall f :: f in fieldOwners ==> exists i :: 0 <= i < |fields| && fields[i].name == f)
    && (forall i :: 0 <= i < |fields| ==>
          fields[i].name in fieldOwners
            && fieldOwners[fields[i].name] == ResolvedOwner(fields[i].directives, lookup, owner))
  }

  lemma ResolvesStep(fieldOwners: map<string, string>, fields: seq<FieldDefinition>, f: FieldDefinition,
                     lookup: map<string, string>, owner: string)
    requires ResolvesLast(fieldOwners, fields, lookup, owner)
    ensures ResolvesLast(fieldOwners[f.name := ResolvedOwner(f.directives, lookup, owner)], fields + [f], lookup, owner)
  {
    hide ResolvedOwner, IsLast;
    var fs, owners := fields + [f], fieldOwners[f.name := ResolvedOwner(f.directives, lookup, owner)];
    forall n | n in owners ensures exists i :: 0 <= i < |fs| && fs[i].name == n {
      if n == f.name {
        assert fs[|fields|].name == n;
      } else {
        var i :| 0 <= i < |fields| && fields[i].name == n;
        assert fs[i].name == n;
      }
    }
    forall i | 0 <= i < |fields| && IsLast(fs, i)
      ensures owners[fields[i].name] == ResolvedOwner(fields[i].directives, lookup, owner)
    {
      LastBefore(fields, f, i);
    }
  }

  lemma LastBefore(fields: seq<FieldDefinition>, f: FieldDefinition, i: nat)
    requires i < |fields| && IsLast(fields + [f], i)
    ensures IsLast(fields, i) && fields[i].name != f.name
  {
    var fs := fields + [f];
    assert fs[|fields|] == f;
    assert forall j :: 0 <= j < |fields| ==> fs[j] == fields[j];
  }

  lemma LastEntry(fields: seq<FieldDefinition>, i: nat) returns (k: nat)
    requires i < |fields|
    ensures i <= k < |fields| && fields[k].name == fields[i].name && IsLast(fields, k)
  {
    k := |fields| - 1;
    while fields[k].name != fields[i].name
      invariant i <= k < |fields| && forall j :: k < j < |fields| ==> fields[j].name != fields[i].name
      decreases k - i
    {
      k := k - 1;
    }
  }

  /** No earlier entry is for the same subgraph. */
  predicate IsFirst(es: seq<EntityExtender>, i: nat)
    requires i < |es|
  {
    forall j :: 0 <= j < i ==> es[j].subgraph != es[i].subgraph
  }

  /** The fields that the i-th declared extender lists in the end. */
  function Listed(before: seq<EntityExtender>, i: nat, fields: seq<FieldDefinition>, lookup: map<string, string>,
                  owner: string): seq<string>
    requires i < |before|
  {
    if before[i].subgraph == owner || !IsFirst(before, i) then []
    else FieldsOf(fields, lookup, owner, before[i].subgraph)
  }

  /** Extender lists after the given fields have been attached. */
  predicate Attached(before: seq<EntityExtender>, after: seq<EntityExtender>, fields: seq<FieldDefinition>,
                     lookup: map<string, string>, owner: string) {
    && |after| == |before|
    && forall i :: 0 <= i < |after| ==>
         after[i] == EntityExtender(before[i].subgraph, Listed(before, i, fields, lookup, owner))
  }

  /** `es` with `name` appended to the first entry for `subgraph`, if there is one. */
  function AppendTo(es: seq<EntityExtender>, subgraph: string, name: string): (r: seq<EntityExtender>)
    ensures |r| == |es|
  {
    if es == [] then []
    else if es[0].subgraph == subgraph then [es[0].(fields := es[0].fields + [name])] + es[1..]
    else [es[0]] + AppendTo(es[1..], subgraph, name)
  }

  lemma {:induction false} AppendToAt(es: seq<EntityExtender>, subgraph: string, name: string, i: nat)
    requires i < |es|
    ensures AppendTo(es, subgraph, name)[i]
         == if es[i].subgraph == subgraph && IsFirst(es, i) then es[i].(fields := es[i].fields + [name]) else es[i]
  {
    if es[0].subgraph != subgraph && i > 0 {
      AppendToAt(es[1..], subgraph, name, i - 1);
      assert IsFirst(es[1..], i - 1) && es[i].subgraph == subgraph ==> IsFirst(es, i) by {
        assert forall j :: 1 <= j < i ==> es[j] == es[1..][j - 1];
      }
      assert IsFirst(es, i) ==> IsFirst(es[1..], i - 1) by {
        assert forall j :: 0 <= j < i - 1 ==> es[1..][j] == es[j + 1];
      }
    }
  }

  method AppendToExtender(after: seq<EntityExtender>, subgraph: string, name: string) returns (r: seq<EntityExtender>)
    ensures r == AppendTo(after, subgraph, name)
  {
    hide AppendTo;
    r := after;
    var k := 0;
    assert after[0..] == after;
    while k < |after| && after[k].subgraph != subgraph
      invariant k <= |after|
      invariant AppendTo(after, subgraph, name) == after[..k] + AppendTo(after[k..], subgraph, name)
    {
      AppendToRest(after, subgraph, name, k);
      assert after[..k + 1] == after[..k] + [after[k]];
      k := k + 1;
    }
    AppendToRest(after, subgraph, name, k);
    if k < |after| {
      r := after[k := after[k].(fields := after[k].fields + [name])];
    }
  }

  lemma AppendToRest(es: seq<EntityExtender>, subgraph: string, name: string, k: nat)
    requires k <= |es|
    ensures AppendTo(es[k..], subgraph, name)
         == if k == |es| then []
            else if es[k].subgraph == subgraph then [es[k].(fields := es[k].fields + [name])] + es[k + 1..]
            else [es[k]] + AppendTo(es[k + 1..], subgraph, name)
  {
    assert k < |es| ==> es[k..][1..] == es[k + 1..];
  }

  lemma AttachedStep(before: seq<EntityExtender>, after: seq<EntityExtender>, fields: seq<FieldDefinition>,
                     f: FieldDefinition, lookup: map<string, string>, owner: string)
    requires Attached(before, after, fields, lookup, owner)
    ensures Attached(before,
      if ResolvedOwner(f.directives, lookup, owner) != owner
      then AppendTo(after, ResolvedOwner(f.directives, lookup, owner), f.name) else after,
      fields + [f], lookup, owner)
  {
    hide ResolvedOwner, IsFirst, AppendTo;
    var resolved := ResolvedOwner(f.directives, lookup, owner);
    assert (fields + [f])[..|fields|] == fields;
    forall i | 0 <= i < |after|
      ensures (if resolved != owner then AppendTo(after, resolved, f.name) else after)[i]
           == EntityExtender(before[i].subgraph, Listed(before, i, fields + [f], lookup, owner))
    {
      AppendToAt(after, resolved, f.name, i);
      SameFirst(before, after, i);
    }
  }

  lemma SameFirst(before: seq<EntityExtender>, after: seq<EntityExtender>, i: nat)
    requires |before| == |after| && i < |before|
    requires forall j :: 0 <= j < |after| ==> after[j].subgraph == before[j].subgraph
    ensures IsFirst(after, i) <==> IsFirst(before, i)
  {
  }

  lemma NothingAttached(declared: seq<EntityExtender>, lookup: map<string, string>, owner: string)
    requires forall i :: 0 <= i < |declared| ==> declared[i].fields == []
    ensures ResolvesLast(map[], [], lookup, owner) && Attached(declared, declared, [], lookup, owner)
  {
  }

  method AttachFields(fields: seq<FieldDefinition>, lookup: map<string, string>, owner: string,
                      declared: seq<EntityExtender>)
    returns (fieldOwners: map<string, string>, extenders: seq<EntityExtender>)
    requires forall i :: 0 <= i < |declared| ==> declared[i].fields == []
    ensures ResolvesLast(fieldOwners, fields, lookup, owner)
    ensures Attached(declared, extenders, fields, lookup, owner)
  {
    hide Attached, ResolvedOwner, ResolvesLast, AppendTo;
    fieldOwners, extenders := map[], declared;
    NothingAttached(declared, lookup, owner);
    for n := 0 to |fields|
      invariant ResolvesLast(fieldOwners, fields[..n], lookup, owner)
      invariant Attached(declared, extenders, fields[..n], lookup, owner)
    {
      var resolved := ResolvedOwner(fields[n].directives, lookup, owner);
      AttachedStep(declared, extenders, fields[..n], fields[n], lookup, owner);
      ResolvesStep(fieldOwners, fields[..n], fields[n], lookup, owner);
      assert fields[..n + 1] == fields[..n] + [fields[n]];
      fieldOwners := fieldOwners[fields[n].name := resolved];
      if resolved != owner {
        extenders := AppendToExtender(extenders, resolved, fields[n].name);
      }
    }
    assert fields[..|fields|] == fields;
  }

  // ---- one type, and all types --------------------------------------------------------------

  function Unfilled(subgraphs: seq<string>): (r: seq<EntityExtender>)
    ensures |r| == |subgraphs|
    ensures forall i :: 0 <= i < |r| ==> r[i] == EntityExtender(subgraphs[i], [])
  {
    if subgraphs == [] then [] else [EntityExtender(subgraphs[0], [])] + Unfilled(subgraphs[1..])
  }

  /**
   * Every declared field has exactly one owner; an extender lists exactly the fields it owns,
   * and no field is listed twice.
   */
  ghost predicate OwnershipConserved(e: EntityType, obj: ObjectType, lookup: map<string, string>) {
    ResolvesAll(e.fieldOwners, obj.fields, lookup, e.owner) && ListsOwnedOnly(e) && ListsNothingTwice(e)
      && ListsAllOwned(e)
  }

  ghost predicate ListsOwnedOnly(e: EntityType) {
    forall i, f :: 0 <= i < |e.extenders| && f in e.extenders[i].fields ==>
      f in e.fieldOwners && e.fieldOwners[f] == e.extenders[i].subgraph && e.extenders[i].subgraph != e.owner
  }

  ghost predicate ListsNothingTwice(e: EntityType) {
    && (forall i :: 0 <= i < |e.extenders| ==> NothingTwice(e.extenders[i].fields))
    && (forall i, j :: 0 <= i < j < |e.extenders| ==> DisjointLists(e.extenders[i].fields, e.extenders[j].fields))
  }

  /** Unless the owner of a field is neither the type's owner nor a declared extender. */
  ghost predicate ListsAllOwned(e: EntityType) {
    forall f :: f in e.fieldOwners && e.fieldOwners[f] != e.owner && IsExtender(e, e.fieldOwners[f]) ==> IsListed(e, f)
  }

  predicate DisjointLists(a: seq<string>, b: seq<string>) { forall f :: f in a ==> f !in b }

  predicate NothingTwice(a: seq<string>) { forall i, j :: 0 <= i < j < |a| ==> a[i] != a[j] }

  predicate IsExtender(e: EntityType, subgraph: string) {
    exists i :: 0 <= i < |e.extenders| && e.extenders[i].subgraph == subgraph
  }

  predicate IsListed(e: EntityType, field: string) {
    exists i :: 0 <= i < |e.extenders| && field in e.extenders[i].fields
  }

  /**
   * Fields that share a name, if there are any, have one owner, and it is no extender that would
   * list the name twice.
   */
  ghost predicate RepeatsAgree(e: EntityType, fields: seq<FieldDefinition>, lookup: map<string, string>) {
    forall i, j :: 0 <= i < j < |fields| && fields[i].name == fields[j].name ==>
      var sg := ResolvedOwner(fields[i].directives, lookup, e.owner);
      sg == ResolvedOwner(fields[j].directives, lookup, e.owner) && (sg == e.owner || !IsExtender(e, sg))
  }

  lemma {:induction false} FieldsOfOwned(fields: seq<FieldDefinition>, lookup: map<string, string>, owner: string,
                                         sg: string)
    ensures forall f :: f in FieldsOf(fields, lookup, owner, sg) <==>
      exists i :: 0 <= i < |fields| && fields[i].name == f && ResolvedOwner(fields[i].directives, lookup, owner) == sg
  {
    if fields != [] {
      var init, last := fields[..|fields| - 1], fields[|fields| - 1];
      FieldsOfOwned(init, lookup, owner, sg);
      assert fields == init + [last];
      assert forall i :: 0 <= i < |init| ==> fields[i] == init[i];
    }
  }

  function OwnedBy(sg: string, lookup: map<string, string>, owner: string): FieldDefinition -> bool {
    (f: FieldDefinition) => ResolvedOwner(f.directives, lookup, owner) == sg
  }

  /** The fields that a subgraph owns stand in the order in which the type declares them. */
  lemma {:induction false} FieldsOfInOrder(fields: seq<FieldDefinition>, lookup: map<string, string>, owner: string,
                                           sg: string) returns (at: seq<nat>)
    ensures PositionsWith(at, fields, OwnedBy(sg, lookup, owner))
    ensures |FieldsOf(fields, lookup, owner, sg)| == |at|
    ensures forall k :: 0 <= k < |at| ==> FieldsOf(fields, lookup, owner, sg)[k] == fields[at[k]].name
  {
    hide PositionsWith, ResolvedOwner;
    if fields == [] {
      at := [];
      NoPositions(OwnedBy(sg, lookup, owner));
    } else {
      var n := |fields| - 1;
      var before := FieldsOfInOrder(fields[..n], lookup, owner, sg);
      OneMorePosition(before, fields[..n], fields[n], OwnedBy(sg, lookup, owner));
      assert fields == fields[..n] + [fields[n]];
      at := if OwnedBy(sg, lookup, owner)(fields[n]) then before + [n] else before;
      assert forall k :: 0 <= k < |before| ==> before[k] < n by {
        PositionsExist(before, fields[..n], OwnedBy(sg, lookup, owner));
      }
    }
  }

  /** Two fields of one name that both belong to the subgraph. */
  ghost predicate OwnedTwice(fields: seq<FieldDefinition>, lookup: map<string, string>, owner: string, sg: string) {
    exists i, j :: 0 <= i < j < |fields| && fields[i].name == fields[j].name
      && ResolvedOwner(fields[i].directives, lookup, owner) == sg == ResolvedOwner(fields[j].directives, lookup, owner)
  }

  lemma {:induction false} FieldsOfDistinct(fields: seq<FieldDefinition>, lookup: map<string, string>, owner: string,
                                            sg: string)
    ensures NothingTwice(FieldsOf(fields, lookup, owner, sg)) <==> !OwnedTwice(fields, lookup, owner, sg)
  {
    hide ResolvedOwner;
    if fields != [] {
      hide OwnedTwice;
      var init, last := fields[..|fields| - 1], fields[|fields| - 1];
      FieldsOfDistinct(init, lookup, owner, sg);
      FieldsOfOwned(init, lookup, owner, sg);
      assert fields == init + [last];
      OwnedTwiceGrows(init, last, lookup, owner, sg);
      var listed := FieldsOf(init, lookup, owner, sg);
      OneMore(listed, last.name);
      assert FieldsOf(fields, lookup, owner, sg)
          == if ResolvedOwner(last.directives, lookup, owner) == sg then listed + [last.name] else listed;
      hide NothingTwice;
    }
  }

  lemma OwnedTwiceGrows(init: seq<FieldDefinition>, last: FieldDefinition, lookup: map<string, string>, owner: string,
                        sg: string)
    ensures OwnedTwice(init + [last], lookup, owner, sg) <==>
      || OwnedTwice(init, lookup, owner, sg)
      || (ResolvedOwner(last.directives, lookup, owner) == sg
          && exists i ::
               0 <= i < |init| && init[i].name == last.name && ResolvedOwner(init[i].directives, lookup, owner) == sg)
  {
    hide ResolvedOwner;
    var fields := init + [last];
    assert fields[|init|] == last;
    assert forall i :: 0 <= i < |init| ==> fields[i] == init[i];
    if i :| 0 <= i < |init| && init[i].name == last.name && ResolvedOwner(init[i].directives, lookup, owner) == sg
            && ResolvedOwner(last.directives, lookup, owner) == sg {
      assert fields[i].name == fields[|init|].name;
    }
    if OwnedTwice(init, lookup, owner, sg) {
      var i, j :| 0 <= i < j < |init| && init[i].name == init[j].name
        && ResolvedOwner(init[i].directives, lookup, owner) == sg == ResolvedOwner(init[j].directives, lookup, owner);
      assert fields[i].name == fields[j].name;
    }
  }

  lemma OneMore(a: seq<string>, name: string)
    ensures NothingTwice(a + [name]) <==> NothingTwice(a) && name !in a
  {
    var b := a + [name];
    assert b[|a|] == name;
    assert forall i :: 0 <= i < |a| ==> b[i] == a[i];
    if name in a {
      var i :| 0 <= i < |a| && a[i] == name;
      assert b[i] == b[|a|];
    }
  }

  /**
   * Ownership is conserved exactly when fields that share a name agree; in particular when no
   * two fields share one, as section 3.6 of the GraphQL specification asks.
   */
  lemma AttachmentConserves(e: EntityType, obj: ObjectType, lookup: map<string, string>, declared: seq<EntityExtender>)
    requires ResolvesLast(e.fieldOwners, obj.fields, lookup, e.owner)
    requires Attached(declared, e.extenders, obj.fields, lookup, e.owner)
    ensures OwnershipConserved(e, obj, lookup) <==> RepeatsAgree(e, obj.fields, lookup)
  {
    hide Attached, ResolvesLast, ResolvesAll, ListsOwnedOnly, ListsNothingTwice, ListsAllOwned, RepeatsAgree;
    if OwnershipConserved(e, obj, lookup) {
      ConservedRepeatsAgree(e, obj, lookup, declared);
    }
    if RepeatsAgree(e, obj.fields, lookup) {
      AllAreResolved(e, obj, lookup);
      ListsAreOwned(e, obj, lookup, declared);
      ListsAreDistinct(e, obj, lookup, declared);
      ExtendersListTheirs(e, obj, lookup, declared);
    }
  }

  lemma AllAreResolved(e: EntityType, obj: ObjectType, lookup: map<string, string>)
    requires ResolvesLast(e.fieldOwners, obj.fields, lookup, e.owner) && RepeatsAgree(e, obj.fields, lookup)
    ensures ResolvesAll(e.fieldOwners, obj.fields, lookup, e.owner)
  {
    hide ResolvedOwner, IsLast, IsExtender;
    var fields := obj.fields;
    forall i | 0 <= i < |fields|
      ensures fields[i].name in e.fieldOwners
              && e.fieldOwners[fields[i].name] == ResolvedOwner(fields[i].directives, lookup, e.owner)
    {
      var k := LastEntry(fields, i);
      assert k != i ==>
          ResolvedOwner(fields[i].directives, lookup, e.owner) == ResolvedOwner(fields[k].directives, lookup, e.owner);
    }
  }

  lemma ListsAreOwned(e: EntityType, obj: ObjectType, lookup: map<string, string>, declared: seq<EntityExtender>)
    requires ResolvesAll(e.fieldOwners, obj.fields, lookup, e.owner)
    requires Attached(declared, e.extenders, obj.fields, lookup, e.owner)
    ensures ListsOwnedOnly(e)
  {
    hide ResolvedOwner, FieldsOf, IsFirst;
    forall i, f | 0 <= i < |e.extenders| && f in e.extenders[i].fields
      ensures f in e.fieldOwners && e.fieldOwners[f] == e.extenders[i].subgraph && e.extenders[i].subgraph != e.owner
    {
      FieldsOfOwned(obj.fields, lookup, e.owner, e.extenders[i].subgraph);
    }
  }

  lemma ListsAreDistinct(e: EntityType, obj: ObjectType, lookup: map<string, string>, declared: seq<EntityExtender>)
    requires ListsOwnedOnly(e) && RepeatsAgree(e, obj.fields, lookup)
    requires Attached(declared, e.extenders, obj.fields, lookup, e.owner)
    ensures ListsNothingTwice(e)
  {
    hide ResolvedOwner, FieldsOf, IsFirst;
    forall i | 0 <= i < |e.extenders| ensures NothingTwice(e.extenders[i].fields) {
      FieldsOfDistinct(obj.fields, lookup, e.owner, e.extenders[i].subgraph);
    }
    forall i, j | 0 <= i < j < |e.extenders| ensures DisjointLists(e.extenders[i].fields, e.extenders[j].fields) {
      NotFirst(declared, i, j);
      assert forall f :: f in e.extenders[i].fields ==> e.fieldOwners[f] == e.extenders[i].subgraph;
      assert forall f :: f in e.extenders[j].fields ==> e.fieldOwners[f] == e.extenders[j].subgraph;
    }
  }

  lemma ExtendersListTheirs(e: EntityType, obj: ObjectType, lookup: map<string, string>, declared: seq<EntityExtender>)
    requires ResolvesAll(e.fieldOwners, obj.fields, lookup, e.owner)
    requires Attached(declared, e.extenders, obj.fields, lookup, e.owner)
    ensures ListsAllOwned(e)
  {
    hide ResolvedOwner, FieldsOf, IsFirst;
    forall f | f in e.fieldOwners && e.fieldOwners[f] != e.owner && IsExtender(e, e.fieldOwners[f])
      ensures IsListed(e, f)
    {
      var i :| 0 <= i < |e.extenders| && e.extenders[i].subgraph == e.fieldOwners[f];
      var k := FirstEntry(declared, e.fieldOwners[f], i);
      FieldsOfOwned(obj.fields, lookup, e.owner, e.fieldOwners[f]);
      assert f in e.extenders[k].fields;
    }
  }

  lemma ConservedRepeatsAgree(e: EntityType, obj: ObjectType, lookup: map<string, string>,
                              declared: seq<EntityExtender>)
    requires Attached(declared, e.extenders, obj.fields, lookup, e.owner) && OwnershipConserved(e, obj, lookup)
    ensures RepeatsAgree(e, obj.fields, lookup)
  {
    hide ResolvedOwner, FieldsOf, IsFirst, NothingTwice, DisjointLists;
    var fields := obj.fields;
    forall i, j | 0 <= i < j < |fields| && fields[i].name == fields[j].name
      ensures var sg := ResolvedOwner(fields[i].directives, lookup, e.owner);
        sg == ResolvedOwner(fields[j].directives, lookup, e.owner) && (sg == e.owner || !IsExtender(e, sg))
    {
      var sg := ResolvedOwner(fields[i].directives, lookup, e.owner);
      assert sg == e.fieldOwners[fields[i].name] == ResolvedOwner(fields[j].directives, lookup, e.owner);
      if sg != e.owner && IsExtender(e, sg) {
        var m :| 0 <= m < |e.extenders| && e.extenders[m].subgraph == sg;
        var k := FirstEntry(declared, sg, m);
        assert NothingTwice(e.extenders[k].fields);
        FieldsOfDistinct(fields, lookup, e.owner, sg);
        assert false;
      }
    }
  }

  lemma NotFirst(declared: seq<EntityExtender>, i: nat, j: nat)
    requires i < j < |declared|
    ensures declared[i].subgraph == declared[j].subgraph ==> !IsFirst(declared, j)
  {
  }

  lemma FirstEntry(declared: seq<EntityExtender>, sg: string, i: nat) returns (k: nat)
    requires i < |declared| && declared[i].subgraph == sg
    ensures k < |declared| && declared[k].subgraph == sg && IsFirst(declared, k)
  {
    k := 0;
    while declared[k].subgraph != sg
      invariant k <= i && forall j :: 0 <= j < k ==> declared[j].subgraph != sg
      decreases i - k
    {
      k := k + 1;
    }
  }

  /** Extended but owned by no subgraph, or owned by one that is not declared. */
  ghost predicate Unowned(obj: ObjectType, subgraphs: map<string, Route>, lookup: map<string, string>) {
    || (NoneWith(obj.directives, IsOwning) && !NoneWith(obj.directives, IsExtending))
    || exists owner :: OwnerIs(obj.directives, lookup, owner) && owner !in subgraphs
  }

  function Subgraphs(extenders: seq<EntityExtender>): (r: seq<string>)
    ensures |r| == |extenders| && forall i :: 0 <= i < |r| ==> r[i] == extenders[i].subgraph
  {
    if extenders == [] then [] else [extenders[0].subgraph] + Subgraphs(extenders[1..])
  }

  /** What the catalogue says of a declared entity type. */
  ghost predicate Describes(e: EntityType, obj: ObjectType, subgraphs: map<string, Route>,
                            lookup: map<string, string>) {
    && e.name == obj.name && OwnerIs(obj.directives, lookup, e.owner) && e.owner in subgraphs
    && KeyFieldsAre(obj.directives, e.keyFields)
    && ExtendersAre(obj.directives, lookup, Subgraphs(e.extenders))
    && ResolvesLast(e.fieldOwners, obj.fields, lookup, e.owner)
    && Attached(Unfilled(Subgraphs(e.extenders)), e.extenders, obj.fields, lookup, e.owner)
    && (OwnershipConserved(e, obj, lookup) <==> RepeatsAgree(e, obj.fields, lookup))
  }

  /** The loop over the directives of a type. */
  method ReadOwnership(ds: seq<Directive>, lookup: map<string, string>) returns (own: Ownership)
    ensures own.owner.None? <==> NoneWith(ds, IsOwning)
    ensures forall owner :: own.owner == Some(owner) <==> OwnerIs(ds, lookup, owner)
    ensures ExtendersAre(ds, lookup, own.extenders) && (own.extenders == [] <==> NoneWith(ds, IsExtending))
    ensures KeyFieldsAre(ds, own.keyFields)
  {
    own := Ownership(None, [], []);
    for i := 0 to |ds|
      invariant own == OwnershipOf(ds[..i], lookup)
    {
      assert ds[..i + 1][..i] == ds[..i];
      var d := ds[i];
      if d.name == "join__type" {
        var join := ReadJoinType(d.arguments, lookup);
        if join.graph.Some? {
          if join.key.Some? && own.keyFields == [] {
            own := own.(keyFields := SplitWhitespace(join.key.value, ""));
          }
          if join.extension {
            own := own.(extenders := own.extenders + [join.graph.value]);
          } else {
            own := own.(owner := join.graph);
          }
        }
      }
    }
    assert ds[..|ds|] == ds;
    DirectivesDecide(ds, lookup);
  }

  method CollectEntityType(obj: ObjectType, subgraphs: map<string, Route>, lookup: map<string, string>)
    returns (r: CatalogResult<Option<EntityType>>)
    ensures r == Accepted(None) <==> NoneWith(obj.directives, IsOwning) && NoneWith(obj.directives, IsExtending)
    ensures r.Rejected? <==> Unowned(obj, subgraphs, lookup)
    ensures r.Accepted? && r.value.Some? ==> Describes(r.value.value, obj, subgraphs, lookup)
  {
    var own := ReadOwnership(obj.directives, lookup);
    hide OwnershipConserved, RepeatsAgree, Attached, ResolvesLast, OwnerIs, ExtendersAre, KeyFieldsAre, NoneWith,
         IsOwning, IsExtending;
    if own.owner.None? {
      return if own.extenders == [] then Accepted(None)
             else Rejected("type " + obj.name + " has no owning @join__type (only extension entries)");
    }
    var owner := own.owner.value;
    if owner !in subgraphs {
      return Rejected("type " + obj.name + " owner subgraph \"" + owner + "\" not declared in join__Graph");
    }
    var fieldOwners, extenders := AttachFields(obj.fields, lookup, owner, Unfilled(own.extenders));
    var e := EntityType(obj.name, own.keyFields, owner, extenders, fieldOwners);
    AttachmentConserves(e, obj, lookup, Unfilled(own.extenders));
    AttachedNames(Unfilled(own.extenders), extenders, obj.fields, lookup, owner);
    assert Subgraphs(extenders) == own.extenders;
    r := Accepted(Some(e));
  }

  lemma AttachedNames(before: seq<EntityExtender>, after: seq<EntityExtender>, fields: seq<FieldDefinition>,
                      lookup: map<string, string>, owner: string)
    requires Attached(before, after, fields, lookup, owner)
    ensures |after| == |before| && forall i :: 0 <= i < |after| ==> after[i].subgraph == before[i].subgraph
  {
  }

  const ROOT_TYPES := {"Query", "Mutation", "Subscription"}

  /** The type is an entity type that some subgraph owns. */
  ghost predicate IsOwned(obj: ObjectType) {
    obj.name !in ROOT_TYPES && !NoneWith(obj.directives, IsOwning)
  }

  /** The i-th type is an owned one, and no later one has its name. */
  ghost predicate IsLastOwned(objs: seq<ObjectType>, i: nat)
    requires i < |objs|
  {
    IsOwned(objs[i]) && forall j :: i < j < |objs| && objs[j].name == objs[i].name ==> !IsOwned(objs[j])
  }

  /** The types of these names, as their last owned declarations give them, and no others. */
  ghost predicate CollectsAll(types: map<string, EntityType>, objs: seq<ObjectType>, subgraphs: map<string, Route>,
                              lookup: map<string, string>) {
    && (forall n :: n in types ==> exists i :: 0 <= i < |objs| && objs[i].name == n && IsLastOwned(objs, i))
    && (forall i :: 0 <= i < |objs| && IsOwned(objs[i]) ==> objs[i].name in types)
    && (forall i :: 0 <= i < |objs| && IsLastOwned(objs, i) ==>
          objs[i].name in types && Describes(types[objs[i].name], objs[i], subgraphs, lookup))
  }

  lemma OwnedAsDescribed(e: EntityType, obj: ObjectType, subgraphs: map<string, Route>, lookup: map<string, string>)
    requires obj.name !in ROOT_TYPES && Describes(e, obj, subgraphs, lookup)
    ensures IsOwned(obj)
  {
    hide OwnershipConserved, RepeatsAgree, Attached, ResolvesLast, IsOwning, GraphIs, ExtendersAre, KeyFieldsAre;
    OwnedIsNotNone(obj.directives, lookup, e.owner);
  }

  lemma NotOwned(obj: ObjectType)
    requires obj.name in ROOT_TYPES || NoneWith(obj.directives, IsOwning)
    ensures !IsOwned(obj)
  {
  }

  lemma CollectsOneMore(types: map<string, EntityType>, e: EntityType, objs: seq<ObjectType>, obj: ObjectType,
                        subgraphs: map<string, Route>, lookup: map<string, string>)
    requires CollectsAll(types, objs, subgraphs, lookup) && IsOwned(obj) && Describes(e, obj, subgraphs, lookup)
    ensures CollectsAll(types[obj.name := e], objs + [obj], subgraphs, lookup)
  {
    hide Describes, IsOwned;
    var all, os := types[obj.name := e], objs + [obj];
    assert os[|objs|] == obj;
    forall n | n in all ensures exists i :: 0 <= i < |os| && os[i].name == n && IsLastOwned(os, i) {
      if n == obj.name {
        assert IsLastOwned(os, |objs|);
      } else {
        var i :| 0 <= i < |objs| && objs[i].name == n && IsLastOwned(objs, i);
        assert os[i].name == n && IsLastOwned(os, i);
      }
    }
    forall i | 0 <= i < |os| && IsLastOwned(os, i)
      ensures os[i].name in all && Describes(all[os[i].name], os[i], subgraphs, lookup)
    {
      if i < |objs| {
        assert objs[i].name != obj.name;
        assert IsLastOwned(objs, i) by {
          assert forall j :: 0 <= j < |objs| ==> os[j] == objs[j];
        }
      }
    }
  }

  lemma SameLastOwned(objs: seq<ObjectType>, obj: ObjectType)
    requires !IsOwned(obj)
    ensures forall i :: 0 <= i < |objs| ==> (IsLastOwned(objs + [obj], i) <==> IsLastOwned(objs, i))
    ensures !IsLastOwned(objs + [obj], |objs|)
  {
    hide IsOwned;
    var os := objs + [obj];
    assert os[|objs|] == obj && forall j :: 0 <= j < |objs| ==> os[j] == objs[j];
  }

  lemma CollectsNoMore(types: map<string, EntityType>, objs: seq<ObjectType>, obj: ObjectType,
                       subgraphs: map<string, Route>, lookup: map<string, string>)
    requires CollectsAll(types, objs, subgraphs, lookup) && !IsOwned(obj)
    ensures CollectsAll(types, objs + [obj], subgraphs, lookup)
  {
    hide Describes, IsOwned;
    var os := objs + [obj];
    assert os[|objs|] == obj;
    assert forall j :: 0 <= j < |objs| ==> os[j] == objs[j];
    SameLastOwned(objs, obj);
    hide IsLastOwned;
    forall n | n in types ensures exists i :: 0 <= i < |os| && os[i].name == n && IsLastOwned(os, i) {
      var i :| 0 <= i < |objs| && objs[i].name == n && IsLastOwned(objs, i);
      assert os[i].name == n && IsLastOwned(os, i);
    }
  }

  /** Some type of these cannot be accepted. */
  ghost predicate SomeUnowned(objs: seq<ObjectType>, subgraphs: map<string, Route>, lookup: map<string, string>) {
    exists i :: 0 <= i < |objs| && objs[i].name !in ROOT_TYPES && Unowned(objs[i], subgraphs, lookup)
  }

  lemma UnownedGrows(objs: seq<ObjectType>, n: nat, subgraphs: map<string, Route>, lookup: map<string, string>)
    requires n < |objs|
    ensures objs[..n + 1] == objs[..n] + [objs[n]]
    ensures SomeUnowned(objs[..n + 1], subgraphs, lookup)
       <==> SomeUnowned(objs[..n], subgraphs, lookup)
            || (objs[n].name !in ROOT_TYPES && Unowned(objs[n], subgraphs, lookup))
    ensures SomeUnowned(objs[..n + 1], subgraphs, lookup) ==> SomeUnowned(objs, subgraphs, lookup)
  {
    hide Unowned;
    var init, more := objs[..n], objs[..n + 1];
    assert more[n] == objs[n] && forall i :: 0 <= i < n ==> more[i] == init[i] == objs[i];
    if SomeUnowned(init, subgraphs, lookup) {
      var i :| 0 <= i < |init| && init[i].name !in ROOT_TYPES && Unowned(init[i], subgraphs, lookup);
      assert Unowned(more[i], subgraphs, lookup);
    }
  }

  /**
   * The first type that cannot be accepted rejects the supergraph; later owned types of a name
   * replace earlier ones.
   */
  method CollectEntityTypes(objs: seq<ObjectType>, subgraphs: map<string, Route>, lookup: map<string, string>)
    returns (r: CatalogResult<map<string, EntityType>>)
    ensures r.Accepted? ==> CollectsAll(r.value, objs, subgraphs, lookup)
    ensures r.Rejected? <==> SomeUnowned(objs, subgraphs, lookup)
  {
    var out: map<string, EntityType> := map[];
    for i := 0 to |objs|
      invariant CollectsAll(out, objs[..i], subgraphs, lookup)
      invariant !SomeUnowned(objs[..i], subgraphs, lookup)
    {
      hide Describes, CollectsAll, IsOwned, Unowned, SomeUnowned;
      UnownedGrows(objs, i, subgraphs, lookup);
      if objs[i].name in ROOT_TYPES {
        NotOwned(objs[i]);
        CollectsNoMore(out, objs[..i], objs[i], subgraphs, lookup);
      } else {
        var one := CollectEntityType(objs[i], subgraphs, lookup);
        match one {
          case Rejected(reason) => return Rejected(reason);
          case Accepted(None) =>
            NotOwned(objs[i]);
            CollectsNoMore(out, objs[..i], objs[i], subgraphs, lookup);
          case Accepted(Some(e)) =>
            OwnedAsDescribed(e, objs[i], subgraphs, lookup);
            CollectsOneMore(out, e, objs[..i], objs[i], subgraphs, lookup);
            out := out[objs[i].name := e];
        }
      }
    }
    assert objs[..|objs|] == objs;
    r := Accepted(out);
  }
}
