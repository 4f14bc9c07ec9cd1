/** The root fields of a supergraph and the subgraphs that own them (supergraph/catalog.rs). */
module RootFields {
  import opened Common
  import opened Ast
  import opened Joins
  import opened Catalog

  datatype Roots = Roots(query: map<string, string>, mutation: map<string, string>)

  const BUILT_INS := {"_service", "_entities"}

  // ---- who owns a root field -----------------------------------------------------------------------

  /** A `@join__type` that has a graph at all, of whatever kind. */
  predicate HasGraph(d: Directive) { d.name == "join__type" && !NoneWith(d.arguments, IsGraph) }

  ghost predicate GraphStandsFor(args: seq<Argument>, lookup: map<string, string>, sg: string) {
    exists i :: FirstWith(args, i, IsGraph) && StandsFor(args[i].value, lookup, sg)
  }

  /** The graph of the first such directive, the one that is used where a field names none. */
  ghost predicate FallbackIs(ds: seq<Directive>, lookup: map<string, string>, sg: string) {
    exists k :: FirstWith(ds, k, HasGraph) && GraphStandsFor(ds[k].arguments, lookup, sg)
  }

  ghost predicate OwnerIsOf(obj: ObjectType, f: FieldDefinition, lookup: map<string, string>, sg: string) {
    if exists i :: 0 <= i < |f.directives| && NamesGraph(f.directives[i], lookup)
    then exists i :: FirstNaming(f.directives, lookup, i) && FieldGraphIs(f.directives[i], lookup, sg)
    else FallbackIs(obj.directives, lookup, sg)
  }

  ghost predicate IsHomeless(obj: ObjectType, f: FieldDefinition, lookup: map<string, string>) {
    forall sg :: !OwnerIsOf(obj, f, lookup, sg)
  }

  function FirstFallback(ds: seq<Directive>, lookup: map<string, string>): Option<string> {
    if ds == [] then None
    else if ds[0].name == "join__type" && FindArgument(ds[0].arguments, "graph").Some? then GraphArgument(ds[0], lookup)
    else FirstFallback(ds[1..], lookup)
  }

  lemma GraphIsRead(d: Directive, lookup: map<string, string>)
    ensures FindArgument(d.arguments, "graph").None? <==> NoneWith(d.arguments, IsGraph)
    ensures forall sg :: GraphArgument(d, lookup) == Some(sg) <==> GraphStandsFor(d.arguments, lookup, sg)
  {
    FirstGraphIsFound(d.arguments);
    hide FindArgument;
  }

  lemma {:induction false} FallbackIsRead(ds: seq<Directive>, lookup: map<string, string>)
    ensures forall sg :: FirstFallback(ds, lookup) == Some(sg) <==> FallbackIs(ds, lookup, sg)
  {
    hide GraphArgument, GraphStandsFor, NoneWith, FindArgument;
    if ds != [] {
      FallbackIsRead(ds[1..], lookup);
      GraphIsRead(ds[0], lookup);
      forall sg ensures FirstFallback(ds, lookup) == Some(sg) <==> FallbackIs(ds, lookup, sg) {
        if HasGraph(ds[0]) {
          assert FirstWith(ds, 0, HasGraph);
        } else {
          LaterFallback(ds, lookup, sg);
        }
      }
    }
  }

  lemma LaterFallback(ds: seq<Directive>, lookup: map<string, string>, sg: string)
    requires ds != [] && !HasGraph(ds[0])
    ensures FallbackIs(ds, lookup, sg) <==> FallbackIs(ds[1..], lookup, sg)
  {
    hide HasGraph, GraphStandsFor;
    assert forall k :: 0 < k < |ds| ==> ds[k] == ds[1..][k - 1];
    if k :| FirstWith(ds, k, HasGraph) && GraphStandsFor(ds[k].arguments, lookup, sg) {
      assert FirstWith(ds[1..], k - 1, HasGraph);
    }
    if k :| FirstWith(ds[1..], k, HasGraph) && GraphStandsFor(ds[1..][k].arguments, lookup, sg) {
      assert FirstWith(ds, k + 1, HasGraph) && ds[k + 1] == ds[1..][k];
    }
  }

  function RootOwner(obj: ObjectType, f: FieldDefinition, lookup: map<string, string>): Option<string> {
    var named := FirstGraph(f.directives, lookup);
    if named.Some? then named else FirstFallback(obj.directives, lookup)
  }

  lemma OwnerIsRead(obj: ObjectType, f: FieldDefinition, lookup: map<string, string>)
    ensures var owner := RootOwner(obj, f, lookup);
      if owner.Some? then OwnerIsOf(obj, f, lookup, owner.value) else IsHomeless(obj, f, lookup)
  {
    FirstGraphIsNamed(f.directives, lookup);
    FallbackIsRead(obj.directives, lookup);
    hide NamesGraph, FieldGraphIs, FallbackIs, FirstGraph, FirstFallback;
    if i :| FirstNaming(f.directives, lookup, i) {
      assert NamesGraph(f.directives[i], lookup);
    }
  }

  // ---- the maps ----------------------------------------------------------------------------------------

  /** The j-th field of the i-th object type is a field of this root type; federation's own are none. */
  predicate IsRootField(objs: seq<ObjectType>, root: string, i: int, j: int) {
    && 0 <= i < |objs| && objs[i].name == root && 0 <= j < |objs[i].fields|
    && objs[i].fields[j].name !in BUILT_INS
  }

  /** And the last one of its name. */
  ghost predicate IsLastRootField(objs: seq<ObjectType>, root: string, i: int, j: int) {
    && IsRootField(objs, root, i, j)
    && forall k, l :: IsRootField(objs, root, k, l) && objs[k].fields[l].name == objs[i].fields[j].name ==>
         k < i || (k == i && l <= j)
  }

  /** The map has the fields of the root type and no others, each under the owner that its last declaration gives it. */
  ghost predicate Owners(m: map<string, string>, objs: seq<ObjectType>, root: string, lookup: map<string, string>) {
    && (forall n :: n in m ==> exists i, j :: IsRootField(objs, root, i, j) && objs[i].fields[j].name == n)
    && (forall i, j :: IsRootField(objs, root, i, j) ==> objs[i].fields[j].name in m)
    && (forall i, j :: IsLastRootField(objs, root, i, j) ==>
          objs[i].fields[j].name in m
          && OwnerIsOf(objs[i], objs[i].fields[j], lookup, m[objs[i].fields[j].name]))
  }

  /** The object types read so far: these whole, and of one more the fields read so far. */
  function SoFar(objs: seq<ObjectType>, obj: ObjectType, fields: seq<FieldDefinition>): seq<ObjectType> {
    objs + [obj.(fields := fields)]
  }

  lemma OneMoreField(objs: seq<ObjectType>, obj: ObjectType, fields: seq<FieldDefinition>, f: FieldDefinition,
                     root: string)
    ensures var was, now := SoFar(objs, obj, fields), SoFar(objs, obj, fields + [f]);
      forall i, j :: IsRootField(now, root, i, j) <==>
        || IsRootField(was, root, i, j)
        || (i == |objs| && j == |fields| && obj.name == root && f.name !in BUILT_INS)
  {
  }

  lemma OwnersGrow(m: map<string, string>, objs: seq<ObjectType>, obj: ObjectType, fields: seq<FieldDefinition>,
                   f: FieldDefinition, root: string, lookup: map<string, string>, owner: string)
    requires Owners(m, SoFar(objs, obj, fields), root, lookup)
    requires obj.name == root && f.name !in BUILT_INS && OwnerIsOf(obj, f, lookup, owner)
    ensures Owners(m[f.name := owner], SoFar(objs, obj, fields + [f]), root, lookup)
  {
    var was, now, m' := SoFar(objs, obj, fields), SoFar(objs, obj, fields + [f]), m[f.name := owner];
    OneMoreField(objs, obj, fields, f, root);
    hide OwnerIsOf;
    assert IsRootField(now, root, |objs|, |fields|);
    assert forall i, j :: IsRootField(was, root, i, j) ==> now[i].fields[j] == was[i].fields[j];
    forall i, j | IsLastRootField(now, root, i, j)
      ensures now[i].fields[j].name in m'
              && OwnerIsOf(now[i], now[i].fields[j], lookup, m'[now[i].fields[j].name])
    {
      if i == |objs| && j == |fields| {
        SameOwner(now[i], obj, f, lookup, owner);
      } else {
        assert now[i].fields[j].name != f.name;
        assert IsLastRootField(was, root, i, j);
        SameOwner(now[i], was[i], now[i].fields[j], lookup, m[now[i].fields[j].name]);
      }
    }
  }

  lemma SameOwner(a: ObjectType, b: ObjectType, f: FieldDefinition, lookup: map<string, string>, sg: string)
    requires a.directives == b.directives
    ensures OwnerIsOf(a, f, lookup, sg) <==> OwnerIsOf(b, f, lookup, sg)
  {
  }

  lemma OwnersStay(m: map<string, string>, objs: seq<ObjectType>, obj: ObjectType, fields: seq<FieldDefinition>,
                   f: FieldDefinition, root: string, lookup: map<string, string>)
    requires Owners(m, SoFar(objs, obj, fields), root, lookup)
    requires obj.name != root || f.name in BUILT_INS
    ensures Owners(m, SoFar(objs, obj, fields + [f]), root, lookup)
  {
    OneMoreField(objs, obj, fields, f, root);
    SameRootFields(m, SoFar(objs, obj, fields), SoFar(objs, obj, fields + [f]), root, lookup);
  }

  /** Lists with the same root fields, at the same places, have the same owners. */
  lemma SameRootFields(m: map<string, string>, was: seq<ObjectType>, now: seq<ObjectType>, root: string,
                       lookup: map<string, string>)
    requires Owners(m, was, root, lookup)
    requires forall i, j :: IsRootField(now, root, i, j) <==> IsRootField(was, root, i, j)
    requires forall i, j :: IsRootField(was, root, i, j) && IsRootField(now, root, i, j) ==>
               now[i].fields[j] == was[i].fields[j] && now[i].directives == was[i].directives
    ensures Owners(m, now, root, lookup)
  {
    hide OwnerIsOf;
    forall n | n in m ensures exists i, j :: IsRootField(now, root, i, j) && now[i].fields[j].name == n {
      var i, j :| IsRootField(was, root, i, j) && was[i].fields[j].name == n;
      assert IsRootField(now, root, i, j);
    }
    forall i, j | IsLastRootField(now, root, i, j)
      ensures now[i].fields[j].name in m && OwnerIsOf(now[i], now[i].fields[j], lookup, m[now[i].fields[j].name])
    {
      assert IsRootField(was, root, i, j);
      assert IsLastRootField(was, root, i, j);
      SameOwner(now[i], was[i], now[i].fields[j], lookup, m[now[i].fields[j].name]);
    }
  }

  lemma NewObject(m: map<string, string>, objs: seq<ObjectType>, obj: ObjectType, root: string,
                  lookup: map<string, string>)
    requires Owners(m, objs, root, lookup)
    ensures Owners(m, SoFar(objs, obj, []), root, lookup)
  {
    SameRootFields(m, objs, SoFar(objs, obj, []), root, lookup);
  }

  lemma OtherObject(m: map<string, string>, objs: seq<ObjectType>, obj: ObjectType, root: string,
                    lookup: map<string, string>)
    requires Owners(m, objs, root, lookup) && obj.name != root
    ensures Owners(m, objs + [obj], root, lookup)
  {
    SameRootFields(m, objs, objs + [obj], root, lookup);
  }

  lemma NothingOwned(root: string, lookup: map<string, string>)
    ensures Owners(map[], [], root, lookup)
  {
  }

  // ---- collecting them ---------------------------------------------------------------------------------

  predicate IsRoot(name: string) { name in {"Query", "Mutation"} }

  /** Some root field has no owner. */
  ghost predicate HomelessAt(objs: seq<ObjectType>, lookup: map<string, string>, i: int, j: int) {
    && 0 <= i < |objs| && IsRoot(objs[i].name) && IsRootField(objs, objs[i].name, i, j)
    && IsHomeless(objs[i], objs[i].fields[j], lookup)
  }

  ghost predicate Collected(r: Roots, objs: seq<ObjectType>, lookup: map<string, string>) {
    && Owners(r.query, objs, "Query", lookup) && Owners(r.mutation, objs, "Mutation", lookup)
    && forall i, j :: !HomelessAt(objs, lookup, i, j)
  }

  function WithField(r: Roots, root: string, name: string, owner: string): Roots {
    if root == "Query" then r.(query := r.query[name := owner]) else r.(mutation := r.mutation[name := owner])
  }

  lemma CollectedGrows(r: Roots, objs: seq<ObjectType>, obj: ObjectType, fields: seq<FieldDefinition>,
                       f: FieldDefinition, lookup: map<string, string>)
    requires Collected(r, SoFar(objs, obj, fields), lookup) && IsRoot(obj.name)
    requires f.name !in BUILT_INS ==> RootOwner(obj, f, lookup).Some?
    ensures Collected(if f.name in BUILT_INS then r
                      else WithField(r, obj.name, f.name, RootOwner(obj, f, lookup).value),
                      SoFar(objs, obj, fields + [f]), lookup)
  {
    OwnerIsRead(obj, f, lookup);
    var was, now := SoFar(objs, obj, fields), SoFar(objs, obj, fields + [f]);
    NoMoreHomeless(objs, obj, fields, f, lookup);
    hide Owners, RootOwner, HomelessAt, OwnerIsOf, IsHomeless;
    if obj.name == "Query" && f.name !in BUILT_INS {
      OwnersGrow(r.query, objs, obj, fields, f, "Query", lookup, RootOwner(obj, f, lookup).value);
    } else {
      OwnersStay(r.query, objs, obj, fields, f, "Query", lookup);
    }
    if obj.name == "Mutation" && f.name !in BUILT_INS {
      OwnersGrow(r.mutation, objs, obj, fields, f, "Mutation", lookup, RootOwner(obj, f, lookup).value);
    } else {
      OwnersStay(r.mutation, objs, obj, fields, f, "Mutation", lookup);
    }
  }

  lemma NoMoreHomeless(objs: seq<ObjectType>, obj: ObjectType, fields: seq<FieldDefinition>, f: FieldDefinition,
                       lookup: map<string, string>)
    requires forall i, j :: !HomelessAt(SoFar(objs, obj, fields), lookup, i, j)
    requires f.name !in BUILT_INS ==> !IsHomeless(obj, f, lookup)
    ensures forall i, j :: !HomelessAt(SoFar(objs, obj, fields + [f]), lookup, i, j)
  {
    var was, now := SoFar(objs, obj, fields), SoFar(objs, obj, fields + [f]);
    forall i, j ensures !HomelessAt(now, lookup, i, j) {
      hide IsHomeless;
      if 0 <= i < |now| && IsRootField(now, now[i].name, i, j) {
        OneMoreField(objs, obj, fields, f, now[i].name);
        AlikeHomeless(now[i], if i < |objs| then was[i] else obj, now[i].fields[j], lookup);
        assert !HomelessAt(was, lookup, i, j);
        if i == |objs| {
          AlikeHomeless(was[i], obj, now[i].fields[j], lookup);
        }
      }
    }
  }

  lemma AlikeHomeless(a: ObjectType, b: ObjectType, f: FieldDefinition, lookup: map<string, string>)
    requires a.directives == b.directives
    ensures IsHomeless(a, f, lookup) <==> IsHomeless(b, f, lookup)
  {
    forall sg ensures OwnerIsOf(a, f, lookup, sg) <==> OwnerIsOf(b, f, lookup, sg) {
      SameOwner(a, b, f, lookup, sg);
    }
    hide OwnerIsOf;
  }

  /** Each root field has its owner recorded; a root field without one rejects the supergraph. */
  method CollectRootFields(objs: seq<ObjectType>, lookup: map<string, string>) returns (r: CatalogResult<Roots>)
    ensures r.Rejected? <==> exists i, j :: HomelessAt(objs, lookup, i, j)
    ensures r.Accepted? ==> Collected(r.value, objs, lookup)
  {
    var roots := Roots(map[], map[]);
    NothingOwned("Query", lookup);
    NothingOwned("Mutation", lookup);
    for i := 0 to |objs|
      invariant Collected(roots, objs[..i], lookup)
    {
      var obj := objs[i];
      assert objs[..i + 1] == objs[..i] + [obj];
      StartsObject(roots, objs[..i], obj, lookup);
      hide Collected, RootOwner;
      if IsRoot(obj.name) {
        var fallback := FirstFallback(obj.directives, lookup);
        for j := 0 to |obj.fields|
          invariant Collected(roots, SoFar(objs[..i], obj, obj.fields[..j]), lookup)
        {
          var f := obj.fields[j];
          assert obj.fields[..j + 1] == obj.fields[..j] + [f];
          if f.name !in BUILT_INS {
            var named := FirstGraph(f.directives, lookup);
            var owner := if named.Some? then named else fallback;
            assert owner == RootOwner(obj, f, lookup) by {
              RootOwnerIs(obj, f, lookup);
            }
            if owner.None? {
              IsHomelessAt(objs, lookup, i, j);
              return Rejected(obj.name + "." + f.name + " has no @join__field and no fallback owner");
            }
            CollectedGrows(roots, objs[..i], obj, obj.fields[..j], f, lookup);
            roots := WithField(roots, obj.name, f.name, owner.value);
          } else {
            CollectedGrows(roots, objs[..i], obj, obj.fields[..j], f, lookup);
          }
        }
        assert obj.fields[..|obj.fields|] == obj.fields;
        assert SoFar(objs[..i], obj, obj.fields) == objs[..i] + [obj];
      }
    }
    assert objs[..|objs|] == objs;
    r := Accepted(roots);
  }

  lemma RootOwnerIs(obj: ObjectType, f: FieldDefinition, lookup: map<string, string>)
    ensures var named := FirstGraph(f.directives, lookup);
      RootOwner(obj, f, lookup) == if named.Some? then named else FirstFallback(obj.directives, lookup)
  {
  }

  lemma StartsObject(r: Roots, objs: seq<ObjectType>, obj: ObjectType, lookup: map<string, string>)
    requires Collected(r, objs, lookup)
    ensures if IsRoot(obj.name) then Collected(r, SoFar(objs, obj, []), lookup) else Collected(r, objs + [obj], lookup)
  {
    hide Owners, IsHomeless;
    if IsRoot(obj.name) {
      NewObject(r.query, objs, obj, "Query", lookup);
      NewObject(r.mutation, objs, obj, "Mutation", lookup);
      assert forall i, j :: !HomelessAt(SoFar(objs, obj, []), lookup, i, j) by {
        assert forall i, j :: HomelessAt(SoFar(objs, obj, []), lookup, i, j) ==> HomelessAt(objs, lookup, i, j);
      }
    } else {
      OtherObject(r.query, objs, obj, "Query", lookup);
      OtherObject(r.mutation, objs, obj, "Mutation", lookup);
      assert forall i, j :: !HomelessAt(objs + [obj], lookup, i, j) by {
        assert forall i, j :: HomelessAt(objs + [obj], lookup, i, j) ==> HomelessAt(objs, lookup, i, j);
      }
    }
  }

  lemma IsHomelessAt(objs: seq<ObjectType>, lookup: map<string, string>, i: nat, j: nat)
    requires i < |objs| && IsRoot(objs[i].name) && j < |objs[i].fields| && objs[i].fields[j].name !in BUILT_INS
    requires RootOwner(objs[i], objs[i].fields[j], lookup).None?
    ensures HomelessAt(objs, lookup, i, j)
  {
    OwnerIsRead(objs[i], objs[i].fields[j], lookup);
  }
}
