/** The main theorem about the query pipeline: stitched responses equal direct evaluation. */
module Stitching {
  import opened Common
  import opened Ast
  import opened Scanners
  import opened Synthesis
  import opened Responses
  import opened Fetches
  import opened Catalog
  import opened Planner
  import opened PlannerProperties
  import opened Executor
  import opened Evaluation
  import opened Trees
  import opened Federation
  import Merge

  // ---- one object ------------------------------------------------------------------------

  predicate DistinctFields(sels: seq<Selection>) {
    && (forall i :: 0 <= i < |sels| ==> sels[i].FieldSel?)
    && (forall i, j :: 0 <= i < j < |sels| ==> ResponseKey(sels[i].field) != ResponseKey(sels[j].field))
  }

  /** `m` holds the selected fields, each with its value under its response key, and nothing else. */
  ghost predicate HoldsSelected(m: map<string, Json>, sels: seq<Selection>, value: Field -> Json)
    requires DistinctFields(sels)
  {
    && (forall i :: 0 <= i < |sels| ==>
         ResponseKey(sels[i].field) in m && m[ResponseKey(sels[i].field)] == value(sels[i].field))
    && (forall r :: r in m ==> exists i :: 0 <= i < |sels| && ResponseKey(sels[i].field) == r)
  }

  lemma OneMoreSelected(m: map<string, Json>, rest: map<string, Json>, sels: seq<Selection>, value: Field -> Json)
    requires sels != [] && DistinctFields(sels) && HoldsSelected(rest, sels[1..], value)
    requires m == map[ResponseKey(sels[0].field) := value(sels[0].field)] + rest
    ensures HoldsSelected(m, sels, value)
  {
    assert forall i :: 1 <= i < |sels| ==> sels[i] == sels[1..][i - 1];
    forall r | r in m ensures exists i :: 0 <= i < |sels| && ResponseKey(sels[i].field) == r {
      if r != ResponseKey(sels[0].field) {
        var i :| 0 <= i < |sels[1..]| && ResponseKey(sels[1..][i].field) == r;
        assert ResponseKey(sels[i + 1].field) == r;
      }
    }
  }

  lemma {:induction false} PlainlyCollected(w: World, id: int, sels: seq<Selection>)
    requires DistinctFields(sels)
    ensures |Collected(w, id, sels)| == |sels| && forall i :: 0 <= i < |sels| ==>
              Collected(w, id, sels)[i] == sels[i].field
  {
    if sels != [] {
      PlainlyCollected(w, id, sels[1..]);
      assert Collected(w, id, sels) == [sels[0].field] + Collected(w, id, sels[1..]);
    }
  }

  /** The fields of an executed selection set are the selected ones, each under its response key. */
  lemma ExecutedFields(w: World, sg: string, vars: map<string, Json>, id: int, sels: seq<Selection>)
    requires DistinctFields(sels)
    ensures HoldsSelected(ExecuteSelections(w, sg, vars, id, sels), sels, f => ExecuteField(w, sg, vars, id, f))
  {
    hide ExecuteField, Collected, Under, Joined, ExecuteSelections;
    var fields, m := Collected(w, id, sels), ExecuteSelections(w, sg, vars, id, sels);
    PlainlyCollected(w, id, sels);
    forall i | 0 <= i < |sels|
      ensures ResponseKey(sels[i].field) in m
              && m[ResponseKey(sels[i].field)] == ExecuteField(w, sg, vars, id, sels[i].field)
    {
      AloneUnder(fields, i);
      OneOfAKind(fields[i]);
      ExecutedUnder(w, sg, vars, id, sels, ResponseKey(fields[i]));
    }
    forall r | r in m ensures exists i :: 0 <= i < |sels| && ResponseKey(sels[i].field) == r {
      ExecutedUnder(w, sg, vars, id, sels, r);
      UnderIsThere(fields, r);
      var f := Under(fields, r)[0];
      assert f in fields;
    }
  }

  lemma {:induction false} DirectlyResolved(w: World, entity: EntityType, initial: string, vars: map<string, Json>,
                                            id: int, sels: seq<Selection>)
    requires DistinctFields(sels)
    ensures HoldsSelected(DirectFields(w, entity, initial, vars, id, sels), sels,
                          f => ExecuteField(w, Resolver(entity, initial, f), vars, id, f))
  {
    hide ExecuteField, Resolver;
    if sels != [] {
      DirectlyResolved(w, entity, initial, vars, id, sels[1..]);
      var m, rest := DirectFields(w, entity, initial, vars, id, sels),
          DirectFields(w, entity, initial, vars, id, sels[1..]);
      var f0 := sels[0].field;
      assert m == map[ResponseKey(f0) := ExecuteField(w, Resolver(entity, initial, f0), vars, id, f0)] + rest;
      hide DirectFields, HoldsSelected;
      OneMoreSelected(m, rest, sels, f => ExecuteField(w, Resolver(entity, initial, f), vars, id, f));
    }
  }

  lemma DirectKeyIsSelected(w: World, entity: EntityType, initial: string, vars: map<string, Json>, id: int,
                            sels: seq<Selection>, r: string)
    returns (i: nat)
    requires DistinctFields(sels) && r in DirectFields(w, entity, initial, vars, id, sels)
    ensures i < |sels| && ResponseKey(sels[i].field) == r
  {
    DirectlyResolved(w, entity, initial, vars, id, sels);
    hide DirectFields;
    i :| 0 <= i < |sels| && ResponseKey(sels[i].field) == r;
  }

  lemma SentIsDistinct(sels: seq<Selection>, entity: EntityType, initial: string, sg: string)
    requires PlainSelections(sels, entity)
    ensures DistinctFields(SentTo(sels, entity, initial, sg))
  {
    hide PlainField;
    SentToItsOwnerOnly(sels, entity, initial, sg);
  }

  /** The object after the entity fetches of `sgs`, on top of the initial fetch. */
  ghost function Gathered(w: World, entity: EntityType, initial: string, vars: map<string, Json>, id: int,
                          sels: seq<Selection>, sgs: seq<string>): map<string, Json> {
    if sgs == [] then ExecuteSelections(w, initial, vars, id, InitialSelections(sels, entity, initial))
    else
      var n := |sgs| - 1;
      Gathered(w, entity, initial, vars, id, sels, sgs[..n])
      + ExecuteSelections(w, sgs[n], vars, id, SentTo(sels, entity, initial, sgs[n]))
  }

  /** The i-th selection is sent to `sg`. */
  predicate OwnedAt(sels: seq<Selection>, entity: EntityType, initial: string, sg: string, i: int) {
    0 <= i < |sels| && Sent(sels[i], EntityKey(entity)) && OwnerOf(entity, sels[i].field.name, initial) == sg
  }

  /** `m` holds the fields that `sg` owns, each executed there, and nothing else. */
  ghost predicate Supplies(m: map<string, Json>, w: World, entity: EntityType, initial: string,
                           vars: map<string, Json>, id: int, sels: seq<Selection>, sg: string) {
    && (forall i :: OwnedAt(sels, entity, initial, sg, i) ==>
          ResponseKey(sels[i].field) in m
            && m[ResponseKey(sels[i].field)] == ExecuteField(w, sg, vars, id, sels[i].field))
    && (forall r :: r in m ==> exists i :: OwnedAt(sels, entity, initial, sg, i) && ResponseKey(sels[i].field) == r)
  }

  lemma SentIsExecuted(w: World, entity: EntityType, initial: string, vars: map<string, Json>, id: int,
                       sels: seq<Selection>, sg: string)
    requires PlainSelections(sels, entity)
    ensures Supplies(ExecuteSelections(w, sg, vars, id, SentTo(sels, entity, initial, sg)), w, entity, initial, vars,
                     id, sels, sg)
  {
    var sent, ix := SentTo(sels, entity, initial, sg), SentIndices(sels, entity, initial, sg);
    var m := ExecuteSelections(w, sg, vars, id, sent);
    SentIsDistinct(sels, entity, initial, sg);
    ExecutedFields(w, sg, vars, id, sent);
    SentToItsOwnerOnly(sels, entity, initial, sg);
    hide PlainSelections, ExecuteSelections, ExecuteField, SentTo, SentIndices, Sent, OwnerOf, EntityKey, PlainField;
    SentSupplies(m, w, entity, initial, vars, id, sels, sg, sent, ix);
  }

  lemma SentSupplies(m: map<string, Json>, w: World, entity: EntityType, initial: string, vars: map<string, Json>,
                     id: int, sels: seq<Selection>, sg: string, sent: seq<Selection>, ix: seq<nat>)
    requires DistinctFields(sent) && |ix| == |sent|
    requires forall k :: 0 <= k < |ix| ==> ix[k] < |sels| && sent[k] == sels[ix[k]]
    requires forall i :: 0 <= i < |sels| ==> (i in ix <==> OwnedAt(sels, entity, initial, sg, i))
    requires forall k :: 0 <= k < |sent| ==>
               ResponseKey(sent[k].field) in m
                 && m[ResponseKey(sent[k].field)] == ExecuteField(w, sg, vars, id, sent[k].field)
    requires forall r :: r in m ==> exists k :: 0 <= k < |sent| && ResponseKey(sent[k].field) == r
    ensures Supplies(m, w, entity, initial, vars, id, sels, sg)
  {
    hide ExecuteField, Sent, OwnerOf, EntityKey;
    forall i | OwnedAt(sels, entity, initial, sg, i)
      ensures ResponseKey(sels[i].field) in m
              && m[ResponseKey(sels[i].field)] == ExecuteField(w, sg, vars, id, sels[i].field)
    {
      var k :| 0 <= k < |ix| && ix[k] == i;
      assert sent[k] == sels[i];
    }
    forall r | r in m ensures exists i :: OwnedAt(sels, entity, initial, sg, i) && ResponseKey(sels[i].field) == r {
      var k :| 0 <= k < |sent| && ResponseKey(sent[k].field) == r;
      assert sels[ix[k]] == sent[k] && ix[k] in ix && OwnedAt(sels, entity, initial, sg, ix[k]);
    }
  }

  lemma BareFields(w: World, entity: EntityType, initial: string, vars: map<string, Json>, id: int,
                   sels: seq<Selection>)
    requires PlainSelections(sels, entity)
    ensures ExecuteSelections(w, initial, vars, id, InitialSelections(sels, entity, initial))
         == map["__typename" := ExecuteField(w, initial, vars, id, Bare("__typename").field)]
            + (map[EntityKey(entity) := ExecuteField(w, initial, vars, id, Bare(EntityKey(entity)).field)]
               + ExecuteSelections(w, initial, vars, id, SentTo(sels, entity, initial, initial)))
  {
    var key, sent := EntityKey(entity), SentTo(sels, entity, initial, initial);
    SentIsDistinct(sels, entity, initial, initial);
    PlainlyCollected(w, id, sent);
    forall i | 0 <= i < |sent| ensures ResponseKey(sent[i].field) != "__typename" && ResponseKey(sent[i].field) != key {
      var k := SentToMembers(sels, entity, initial, initial, i);
      SelectedIsNoBookkeeping(sels, entity, k);
    }
    hide ExecuteField, SentTo, EntityKey, PlainSelections, ExecuteSelections, Collected;
    var all := InitialSelections(sels, entity, initial);
    var tail := [Bare(key)] + sent;
    assert all == [Bare("__typename")] + tail;
    FirstField(w, initial, vars, id, key, sent);
    CollectedWithFirst(w, id, key, sent);
    FirstField(w, initial, vars, id, "__typename", tail);
  }

  lemma CollectedWithFirst(w: World, id: int, name: string, rest: seq<Selection>)
    ensures Collected(w, id, [Bare(name)] + rest) == [Bare(name).field] + Collected(w, id, rest)
  {
    assert ([Bare(name)] + rest)[1..] == rest && ([Bare(name)] + rest)[0] == Bare(name);
  }

  /** A bare field in front of selections that use its response key for nothing else. */
  lemma FirstField(w: World, sg: string, vars: map<string, Json>, id: int, name: string, rest: seq<Selection>)
    requires forall f :: f in Collected(w, id, rest) && ResponseKey(f) == name ==> f == Bare(name).field
    ensures ExecuteSelections(w, sg, vars, id, [Bare(name)] + rest)
         == map[name := ExecuteField(w, sg, vars, id, Bare(name).field)] + ExecuteSelections(w, sg, vars, id, rest)
  {
    hide ExecuteField, ExecuteSelections, Collected, Under;
    var m, m' := ExecuteSelections(w, sg, vars, id, [Bare(name)] + rest), ExecuteSelections(w, sg, vars, id, rest);
    var sum := map[name := ExecuteField(w, sg, vars, id, Bare(name).field)] + m';
    forall key ensures (key in m <==> key in sum) && (key in m ==> m[key] == sum[key]) {
      FirstFieldUnder(w, sg, vars, id, name, rest, key);
    }
  }

  /** What `FirstField` says of one response key. */
  ghost predicate FirstFieldAt(w: World, sg: string, vars: map<string, Json>, id: int, name: string,
                               rest: seq<Selection>, key: string) {
    var m, m' := ExecuteSelections(w, sg, vars, id, [Bare(name)] + rest), ExecuteSelections(w, sg, vars, id, rest);
    && (key in m <==> key == name || key in m')
    && (key in m ==> m[key] == if key in m' then m'[key] else ExecuteField(w, sg, vars, id, Bare(name).field))
  }

  lemma FirstFieldUnder(w: World, sg: string, vars: map<string, Json>, id: int, name: string, rest: seq<Selection>,
                        key: string)
    requires forall f :: f in Collected(w, id, rest) && ResponseKey(f) == name ==> f == Bare(name).field
    ensures FirstFieldAt(w, sg, vars, id, name, rest, key)
  {
    hide ExecuteField, ExecuteSelections, Collected, Joined, Under;
    var bare, fields := Bare(name).field, Collected(w, id, rest);
    CollectedWithFirst(w, id, name, rest);
    ExecutedUnder(w, sg, vars, id, [Bare(name)] + rest, key);
    ExecutedUnder(w, sg, vars, id, rest, key);
    UnderWithFirst(bare, fields, key);
    if key == name {
      UnderIsThere(fields, name);
      OnlyBare(bare, Under(fields, name));
      OnlyBare(bare, [bare] + Under(fields, name));
    } else {
      assert [] + Under(fields, key) == Under(fields, key);
    }
  }

  lemma UnderWithFirst(first: Field, rest: seq<Field>, key: string)
    ensures Under([first] + rest, key) == (if ResponseKey(first) == key then [first] else []) + Under(rest, key)
  {
    assert ([first] + rest)[1..] == rest;
  }

  lemma {:induction false} OnlyBare(bare: Field, group: seq<Field>)
    requires bare.selections == [] && forall f :: f in group ==> f == bare
    ensures MergedSelections(group) == [] && (group != [] ==> Joined(group) == bare)
  {
    if group != [] {
      assert group[0] in group;
      assert forall f :: f in group[1..] ==> f in group;
      OnlyBare(bare, group[1..]);
    }
  }

  /** What is in a gathered object: each selected field from its owner, the key, and `__typename`. */
  ghost predicate HasFields(m: map<string, Json>, w: World, entity: EntityType, initial: string,
                            vars: map<string, Json>, id: int, sels: seq<Selection>, sgs: seq<string>) {
    && (forall sg, i :: (sg == initial || sg in sgs) && OwnedAt(sels, entity, initial, sg, i) ==>
          ResponseKey(sels[i].field) in m
            && m[ResponseKey(sels[i].field)] == ExecuteField(w, sg, vars, id, sels[i].field))
    && EntityKey(entity) in m
    && m[EntityKey(entity)] == ExecuteField(w, initial, vars, id, Bare(EntityKey(entity)).field)
    && (forall r :: r in m ==> r == "__typename" || r == EntityKey(entity) || SelectedAs(sels, entity, r))
  }

  /** A selection other than a bookkeeping field has response key `r`. */
  ghost predicate SelectedAs(sels: seq<Selection>, entity: EntityType, r: string) {
    exists i :: 0 <= i < |sels| && Sent(sels[i], EntityKey(entity)) && ResponseKey(sels[i].field) == r
  }

  lemma SelectedIsNoBookkeeping(sels: seq<Selection>, entity: EntityType, i: nat)
    requires PlainSelections(sels, entity) && i < |sels| && Sent(sels[i], EntityKey(entity))
    ensures ResponseKey(sels[i].field) != "__typename" && ResponseKey(sels[i].field) != EntityKey(entity)
  {
    assert PlainField(sels[i].field, EntityKey(entity));
  }

  lemma InitialHasFields(w: World, entity: EntityType, initial: string, vars: map<string, Json>, id: int,
                         sels: seq<Selection>)
    requires PlainSelections(sels, entity)
    ensures HasFields(Gathered(w, entity, initial, vars, id, sels, []), w, entity, initial, vars, id, sels, [])
  {
    BareFields(w, entity, initial, vars, id, sels);
    SentIsExecuted(w, entity, initial, vars, id, sels, initial);
    hide ExecuteField, ExecuteSelections, PlainSelections, SentTo, Supplies, HasFields, InitialSelections;
    BookkeepingIsKept(w, entity, initial, vars, id, sels, ExecuteField(w, initial, vars, id, Bare("__typename").field),
      ExecuteSelections(w, initial, vars, id, SentTo(sels, entity, initial, initial)));
  }

  lemma BookkeepingIsKept(w: World, entity: EntityType, initial: string, vars: map<string, Json>, id: int,
                          sels: seq<Selection>, typename: Json, own: map<string, Json>)
    requires PlainSelections(sels, entity)
    requires Supplies(own, w, entity, initial, vars, id, sels, initial)
    ensures HasFields(map["__typename" := typename]
                      + (map[EntityKey(entity) := ExecuteField(w, initial, vars, id, Bare(EntityKey(entity)).field)]
                         + own),
                      w, entity, initial, vars, id, sels, [])
  {
    SuppliedAreSelected(own, w, entity, initial, vars, id, sels, initial);
    hide ExecuteField, PlainSelections, SelectedAs, EntityKey;
  }

  lemma SuppliedAreSelected(m: map<string, Json>, w: World, entity: EntityType, initial: string,
                            vars: map<string, Json>, id: int, sels: seq<Selection>, sg: string)
    requires PlainSelections(sels, entity)
    requires Supplies(m, w, entity, initial, vars, id, sels, sg)
    ensures forall r :: r in m ==> SelectedAs(sels, entity, r) && r != EntityKey(entity) && r != "__typename"
  {
    hide ExecuteField, PlainSelections;
    forall r | r in m ensures SelectedAs(sels, entity, r) && r != EntityKey(entity) && r != "__typename" {
      var i :| OwnedAt(sels, entity, initial, sg, i) && ResponseKey(sels[i].field) == r;
      SelectedIsNoBookkeeping(sels, entity, i);
    }
  }

  lemma {:induction false} GatheredHasFields(w: World, entity: EntityType, initial: string, vars: map<string, Json>,
                                             id: int, sels: seq<Selection>, sgs: seq<string>)
    requires PlainSelections(sels, entity)
    requires Distinct(sgs) && initial !in sgs
    ensures HasFields(Gathered(w, entity, initial, vars, id, sels, sgs), w, entity, initial, vars, id, sels, sgs)
  {
    hide ExecuteField, ExecuteSelections, SentTo, HasFields, Supplies, PlainSelections;
    if sgs == [] {
      InitialHasFields(w, entity, initial, vars, id, sels);
    } else {
      var n := |sgs| - 1;
      GatheredHasFields(w, entity, initial, vars, id, sels, sgs[..n]);
      SentIsExecuted(w, entity, initial, vars, id, sels, sgs[n]);
      FetchKeepsFields(w, entity, initial, vars, id, sels, sgs[..n], sgs[n],
        Gathered(w, entity, initial, vars, id, sels, sgs[..n]),
        ExecuteSelections(w, sgs[n], vars, id, SentTo(sels, entity, initial, sgs[n])));
      assert sgs[..n] + [sgs[n]] == sgs;
    }
  }

  lemma FetchKeepsFields(w: World, entity: EntityType, initial: string, vars: map<string, Json>, id: int,
                         sels: seq<Selection>, before: seq<string>, sg: string, m: map<string, Json>,
                         extra: map<string, Json>)
    requires PlainSelections(sels, entity)
    requires HasFields(m, w, entity, initial, vars, id, sels, before) && sg !in before && sg != initial
    requires Supplies(extra, w, entity, initial, vars, id, sels, sg)
    ensures HasFields(m + extra, w, entity, initial, vars, id, sels, before + [sg])
  {
    SuppliedAreSelected(extra, w, entity, initial, vars, id, sels, sg);
    forall sg', i | (sg' == initial || sg' in before) && OwnedAt(sels, entity, initial, sg', i)
      ensures ResponseKey(sels[i].field) !in extra
    {
      OthersAreNotSupplied(extra, w, entity, initial, vars, id, sels, sg, sg', i);
    }
    hide ExecuteField, PlainSelections, SelectedAs, EntityKey;
  }

  lemma OthersAreNotSupplied(m: map<string, Json>, w: World, entity: EntityType, initial: string,
                             vars: map<string, Json>, id: int, sels: seq<Selection>, sg: string, sg': string, i: nat)
    requires PlainSelections(sels, entity)
    requires Supplies(m, w, entity, initial, vars, id, sels, sg)
    requires OwnedAt(sels, entity, initial, sg', i) && sg' != sg
    ensures ResponseKey(sels[i].field) !in m
  {
    hide ExecuteField, PlainField;
    forall j | OwnedAt(sels, entity, initial, sg, j) ensures ResponseKey(sels[j].field) != ResponseKey(sels[i].field) {
      assert i != j;
    }
  }

  // ---- stripping leaves clean values alone -----------------------------------------------------

  lemma {:induction false} CleanValueIsKept(w: World, sg: string, vars: map<string, Json>, r: Resolved,
                                            sels: seq<Selection>, drops: set<string>)
    requires Clean(sels, drops)
    ensures Merge.Stripped(Complete(w, sg, vars, r, sels), drops) == Complete(w, sg, vars, r, sels)
    decreases Size(sels), 1, r
  {
    match r
    case Many(items) => CleanItemsAreKept(w, sg, vars, items, sels, drops);
    case Entity(id) => CleanObjectIsKept(w, sg, vars, id, sels, drops);
    case _ =>
  }

  lemma {:induction false} CleanItemsAreKept(w: World, sg: string, vars: map<string, Json>, rs: seq<Resolved>,
                                             sels: seq<Selection>, drops: set<string>)
    requires Clean(sels, drops)
    ensures Merge.StrippedItems(CompleteAll(w, sg, vars, rs, sels), drops) == CompleteAll(w, sg, vars, rs, sels)
    decreases Size(sels), 1, rs
  {
    if rs != [] {
      CleanValueIsKept(w, sg, vars, rs[0], sels, drops);
      CleanItemsAreKept(w, sg, vars, rs[1..], sels, drops);
    }
  }

  lemma {:induction false} CleanObjectIsKept(w: World, sg: string, vars: map<string, Json>, id: int,
                                             sels: seq<Selection>, drops: set<string>)
    requires Clean(sels, drops)
    ensures StrippedFields(ExecuteSelections(w, sg, vars, id, sels), drops) == ExecuteSelections(w, sg, vars, id, sels)
    decreases Size(sels), 0
  {
    hide ExecuteField, ExecuteSelections, Collected, Under, Joined, Size, Clean, Merge.Stripped;
    var fields, m := Collected(w, id, sels), ExecuteSelections(w, sg, vars, id, sels);
    forall key | key in m ensures key !in drops && Merge.Stripped(m[key], drops) == m[key] {
      ExecutedUnder(w, sg, vars, id, sels, key);
      UnderIsThere(fields, key);
      GroupIsSmaller(w, id, sels, key);
      CleanGroup(w, id, sels, key, drops);
      CleanFieldIsKept(w, sg, vars, id, Joined(Under(fields, key)), drops);
    }
  }

  lemma {:induction false} CleanCollected(w: World, id: int, sels: seq<Selection>, drops: set<string>)
    requires Clean(sels, drops)
    ensures forall f :: f in Collected(w, id, sels) ==> ResponseKey(f) !in drops && Clean(f.selections, drops)
    decreases sels
  {
    if sels != [] {
      assert CleanSelection(sels[0], drops);
      match sels[0] {
        case FieldSel(f) =>
        case InlineFragment(_, _, body) => CleanCollected(w, id, body, drops);
        case FragmentSpread(_, _) =>
      }
      CleanCollected(w, id, sels[1..], drops);
    }
  }

  lemma {:induction false} MergedAreClean(group: seq<Field>, drops: set<string>)
    requires forall f :: f in group ==> Clean(f.selections, drops)
    ensures Clean(MergedSelections(group), drops)
  {
    hide CleanSelection;
    if group != [] {
      assert group[0] in group;
      MergedAreClean(group[1..], drops);
    }
  }

  lemma CleanGroup(w: World, id: int, sels: seq<Selection>, key: string, drops: set<string>)
    requires Clean(sels, drops) && Under(Collected(w, id, sels), key) != []
    ensures key !in drops && Clean(Joined(Under(Collected(w, id, sels), key)).selections, drops)
  {
    hide Clean, Collected, Under, MergedSelections;
    var group := Under(Collected(w, id, sels), key);
    CleanCollected(w, id, sels, drops);
    UnderIsThere(Collected(w, id, sels), key);
    assert group[0] in group;
    MergedAreClean(group, drops);
  }

  lemma {:induction false} CleanFieldIsKept(w: World, sg: string, vars: map<string, Json>, id: int, f: Field,
                                            drops: set<string>)
    requires Clean(f.selections, drops)
    ensures Merge.Stripped(ExecuteField(w, sg, vars, id, f), drops) == ExecuteField(w, sg, vars, id, f)
    decreases Size(f.selections), 2
  {
    CleanValueIsKept(w, sg, vars, w.resolve(sg, id, f.name, Arguments(f.arguments, vars)), f.selections, drops);
  }

  // ---- the stitched object is the directly evaluated one ------------------------------------------

  /** Every selection's owner is the initial subgraph or one of `sgs`. */
  ghost predicate Covers(sels: seq<Selection>, entity: EntityType, initial: string, sgs: seq<string>) {
    forall i :: 0 <= i < |sels| && Sent(sels[i], EntityKey(entity)) ==>
      OwnerOf(entity, sels[i].field.name, initial) == initial || OwnerOf(entity, sels[i].field.name, initial) in sgs
  }

  lemma KeyIsDroppedUnlessSelected(sels: seq<Selection>, entity: EntityType)
    requires PlainSelections(sels, entity) && entity.keyFields != [] && EntityKey(entity) != "__typename"
    ensures EntityKey(entity) in Drops(sels, entity) ==>
              !exists i :: 0 <= i < |sels| && ResponseKey(sels[i].field) == EntityKey(entity)
    ensures EntityKey(entity) !in Drops(sels, entity) && Unaliased(sels, entity) ==>
              exists i :: 0 <= i < |sels| && ResponseKey(sels[i].field) == EntityKey(entity)
    ensures Drops(sels, entity) <= {"__typename", EntityKey(entity)} && "__typename" in Drops(sels, entity)
  {
    var key := EntityKey(entity);
    assert key in entity.keyFields;
    forall i | 0 <= i < |sels|
      ensures ResponseKey(sels[i].field) == key ==> key in RequestedKeys(sels, entity)
    {
      assert PlainField(sels[i].field, key);
    }
    assert key in Drops(sels, entity) <==> key !in RequestedKeys(sels, entity) || key == "__typename";
    if key !in Drops(sels, entity) && Unaliased(sels, entity) {
      var i :| 0 <= i < |sels| && sels[i].FieldSel? && sels[i].field.name == key;
      assert ResponseKey(sels[i].field) == key;
    }
  }

  /** The value that direct evaluation gives the i-th selection is in the gathered object. */
  lemma SelectionStitched(m: map<string, Json>, w: World, entity: EntityType, initial: string,
                          vars: map<string, Json>, id: int, sels: seq<Selection>, sgs: seq<string>, i: nat)
    requires PlainSelections(sels, entity) && Unaliased(sels, entity) && i < |sels|
    requires ResponseKey(sels[i].field) != "__typename"
    requires HasFields(m, w, entity, initial, vars, id, sels, sgs) && Covers(sels, entity, initial, sgs)
    ensures var f := sels[i].field;
      ResponseKey(f) in m && m[ResponseKey(f)] == ExecuteField(w, Resolver(entity, initial, f), vars, id, f)
  {
    var f, key := sels[i].field, EntityKey(entity);
    assert PlainField(f, key);
    hide PlainSelections;
    if f.name == key {
      SameField(w, initial, vars, id, f, Bare(key).field);
    } else {
      assert OwnedAt(sels, entity, initial, OwnerOf(entity, f.name, initial), i);
    }
  }

  lemma SameField(w: World, sg: string, vars: map<string, Json>, id: int, f: Field, g: Field)
    requires f.name == g.name && f.arguments == g.arguments && f.selections == g.selections
    ensures ExecuteField(w, sg, vars, id, f) == ExecuteField(w, sg, vars, id, g)
  {
  }

  /** Stripped alike, the gathered object is the directly evaluated one. */
  lemma ObjectStitched(w: World, entity: EntityType, initial: string, vars: map<string, Json>, id: int,
                       sels: seq<Selection>, sgs: seq<string>)
    requires PlainSelections(sels, entity) && Unaliased(sels, entity)
    requires entity.keyFields != [] && EntityKey(entity) != "__typename"
    requires Distinct(sgs) && initial !in sgs && Covers(sels, entity, initial, sgs)
    ensures StrippedFields(Gathered(w, entity, initial, vars, id, sels, sgs), Drops(sels, entity))
         == StrippedFields(DirectFields(w, entity, initial, vars, id, sels), Drops(sels, entity))
  {
    hide PlainField, ExecuteField, Gathered, DirectFields, Covers, Drops, Merge.Stripped, HasFields, StrippedFields;
    var m, drops := Gathered(w, entity, initial, vars, id, sels, sgs), Drops(sels, entity);
    var direct := DirectFields(w, entity, initial, vars, id, sels);
    GatheredHasFields(w, entity, initial, vars, id, sels, sgs);
    DirectlyResolved(w, entity, initial, vars, id, sels);
    KeyIsDroppedUnlessSelected(sels, entity);
    hide PlainSelections, Unaliased;
    forall r | r in direct && r !in drops ensures r in m && m[r] == direct[r] {
      var i := DirectKeyIsSelected(w, entity, initial, vars, id, sels, r);
      SelectionStitched(m, w, entity, initial, vars, id, sels, sgs, i);
    }
    forall r | r in m && r !in drops ensures r in direct {
      StrippedLeavesSelected(m, w, entity, initial, vars, id, sels, sgs, r);
    }
    SameFields(m, drops, direct);
  }

  lemma SameFields(m: map<string, Json>, drops: set<string>, direct: map<string, Json>)
    requires forall r :: r in direct && r !in drops ==> r in m && m[r] == direct[r]
    requires forall r :: r in m && r !in drops ==> r in direct
    ensures StrippedFields(m, drops) == StrippedFields(direct, drops)
  {
    hide Merge.Stripped;
  }

  lemma StrippedLeavesSelected(m: map<string, Json>, w: World, entity: EntityType, initial: string,
                               vars: map<string, Json>, id: int, sels: seq<Selection>, sgs: seq<string>, r: string)
    requires PlainSelections(sels, entity) && Unaliased(sels, entity)
    requires entity.keyFields != [] && EntityKey(entity) != "__typename"
    requires HasFields(m, w, entity, initial, vars, id, sels, sgs)
    requires r in m && r !in Drops(sels, entity)
    ensures exists i :: 0 <= i < |sels| && ResponseKey(sels[i].field) == r
  {
    KeyIsDroppedUnlessSelected(sels, entity);
    hide PlainSelections, ExecuteField, Drops;
    if r != EntityKey(entity) {
      assert SelectedAs(sels, entity, r);
    }
  }

  // ---- the fetches of a plan ---------------------------------------------------------------------------

  lemma GatheredUnfolds(w: World, entity: EntityType, initial: string, vars: map<string, Json>, sels: seq<Selection>,
                        sgs: seq<string>)
    requires sgs != []
    ensures var n := |sgs| - 1;
      forall id :: Gathered(w, entity, initial, vars, id, sels, sgs) ==
        Gathered(w, entity, initial, vars, id, sels, sgs[..n])
          + ExecuteSelections(w, sgs[n], vars, id, SentTo(sels, entity, initial, sgs[n]))
  {
    hide ExecuteSelections, SentTo;
  }

  /** Folding the entity answers back gives each object what its owners supply. */
  lemma {:induction false} EntitiesGathered(w: World, entity: EntityType, initial: string, vars: map<string, Json>,
                                            sels: seq<Selection>, sgs: seq<string>, results: seq<EntityFetchResult>,
                                            r: Resolved)
    requires |results| == |sgs|
    requires forall k :: 0 <= k < |sgs| ==>
      results[k].outcome == EntityOutcome(w, sgs[k], vars, Ids(r), SentTo(sels, entity, initial, sgs[k]))
    ensures Merge.EntityValues(Tree(r, id => ExecuteSelections(w, initial, vars, id,
                                                               InitialSelections(sels, entity, initial))), results)
         == Tree(r, id => Gathered(w, entity, initial, vars, id, sels, sgs))
    ensures forall key :: Merge.AllEntityErrors(key, results) == []
  {
    hide ExecuteSelections, InitialSelections, SentTo;
    var base := Tree(r, id => ExecuteSelections(w, initial, vars, id, InitialSelections(sels, entity, initial)));
    if sgs == [] {
      TreesEqual(r, id => ExecuteSelections(w, initial, vars, id, InitialSelections(sels, entity, initial)),
                    id => Gathered(w, entity, initial, vars, id, sels, sgs));
    } else {
      var n := |sgs| - 1;
      EntitiesGathered(w, entity, initial, vars, sels, sgs[..n], results[..n], r);
      hide Gathered, Tree, EntityOutcome;
      OneMoreGathered(w, entity, initial, vars, sels, sgs, results[n].outcome, r);
    }
  }

  /** Folding in the last extender's answer. */
  lemma OneMoreGathered(w: World, entity: EntityType, initial: string, vars: map<string, Json>, sels: seq<Selection>,
                        sgs: seq<string>, outcome: Outcome, r: Resolved)
    requires sgs != []
    requires outcome == EntityOutcome(w, sgs[|sgs| - 1], vars, Ids(r), SentTo(sels, entity, initial, sgs[|sgs| - 1]))
    ensures Merge.EntityValue(Tree(r, id => Gathered(w, entity, initial, vars, id, sels, sgs[..|sgs| - 1])), outcome)
         == Tree(r, id => Gathered(w, entity, initial, vars, id, sels, sgs))
    ensures outcome.Answered? && outcome.response.errors == []
  {
    hide ExecuteSelections, InitialSelections, SentTo, Gathered, Tree;
    var n := |sgs| - 1;
    GatheredUnfolds(w, entity, initial, vars, sels, sgs);
    var g := id => Gathered(w, entity, initial, vars, id, sels, sgs[..n]);
    var h := id => ExecuteSelections(w, sgs[n], vars, id, SentTo(sels, entity, initial, sgs[n]));
    var objects := EntityObjects(w, sgs[n], vars, Ids(r), SentTo(sels, entity, initial, sgs[n]));
    assert Holds(objects, 0, Ids(r), h);
    TreeMerges(r, g, h, objects, 0);
    TreesEqual(r, id => g(id) + h(id), id => Gathered(w, entity, initial, vars, id, sels, sgs));
    assert Merge.EntityValue(Tree(r, g), outcome) == Merge.Merged(Tree(r, g), objects, 0).0;
  }

  /** What a plan with an entity type says, in terms of the tree. */
  lemma PlanUnfolds(kind: OperationType, ds: seq<VariableDefinition>, f: Field, catalog: SupergraphCatalog,
                    order: HashOrder, fetch: FieldFetch, typeName: string, initial: string)
    requires IterationOrder(order, catalog) && RoutesNamed(catalog)
    requires PlanField(kind, ds, f, catalog, order) == Plan(fetch) && fetch.entityType == Some(typeName)
    requires f.name in RootOwners(kind, catalog) && RootOwners(kind, catalog)[f.name] == initial
    ensures typeName in catalog.entityTypes
    ensures var entity := catalog.entityTypes[typeName];
      var text := SynthesizeRootOperation(kind, ds, f, InitialText(f.selections, entity, initial));
      var sgs := Contributing(f.selections, entity, initial, order.groups);
      && fetch.responseKey == ResponseKey(f)
      && fetch.initial.route.name == initial
      && fetch.initial.queryText == text && fetch.initial.variableNames == VariablesIn(text)
      && fetch.clientRequestedIdKeys == RequestedKeys(f.selections, entity)
      && |fetch.entityFetches| == |sgs|
      && (forall k :: 0 <= k < |sgs| ==>
            && fetch.entityFetches[k].route.name == sgs[k]
            && fetch.entityFetches[k].typeName == typeName
            && fetch.entityFetches[k].keyField == EntityKey(entity)
            && fetch.entityFetches[k].fragmentBody
            == JoinSpace(Rendered(SentTo(f.selections, entity, initial, sgs[k]))))
  {
    hide SynthesizeRootOperation, InitialText, VariablesIn, SentTo, RequestedKeys, BestType, JoinSpace, Rendered;
    var entity := catalog.entityTypes[typeName];
    OneFetchPerContributor(f.selections, typeName, entity, initial, catalog, order.groups);
  }

  lemma ContributorsCover(sels: seq<Selection>, entity: EntityType, initial: string, groups: seq<string>)
    requires Distinct(groups)
    requires forall n :: n in entity.fieldOwners ==> entity.fieldOwners[n] in groups
    ensures var sgs := Contributing(sels, entity, initial, groups);
      Distinct(sgs) && initial !in sgs && Covers(sels, entity, initial, sgs)
      && forall sg :: sg in sgs ==> SentTo(sels, entity, initial, sg) != []
  {
    hide SentTo, OwnerOf;
    ContributorsAreExact(sels, entity, initial, groups);
    forall i | 0 <= i < |sels| && Sent(sels[i], EntityKey(entity))
      ensures OwnerOf(entity, sels[i].field.name, initial) == initial
           || OwnerOf(entity, sels[i].field.name, initial) in Contributing(sels, entity, initial, groups)
    {
      EveryOwnerIsAsked(sels, entity, initial, groups, i);
    }
  }

  /** The references extracted from the initial value are the keys of its objects. */
  lemma InitialRefs(w: World, entity: EntityType, initial: string, vars: map<string, Json>, sels: seq<Selection>,
                    typeName: string, keyOf: int -> Atom, r: Resolved)
    requires PlainSelections(sels, entity) && EntityKey(entity) != "__typename"
    requires Keyed(w, typeName, EntityKey(entity), keyOf, initial)
    requires AllOfType(w, Ids(r), typeName)
    ensures Refs(Tree(r, id => ExecuteSelections(w, initial, vars, id, InitialSelections(sels, entity, initial))),
                 EntityKey(entity))
         == KeysOf(Ids(r), keyOf)
  {
    var key := EntityKey(entity);
    var g := id => ExecuteSelections(w, initial, vars, id, InitialSelections(sels, entity, initial));
    forall id | id in Ids(r) ensures key in g(id) && g(id)[key] == Leaf(keyOf(id)) {
      InitialHasFields(w, entity, initial, vars, id, sels);
      assert w.resolve(initial, id, key, map[]) == Scalar(keyOf(id));
      assert ExecuteField(w, initial, vars, id, Bare(key).field) == Leaf(keyOf(id));
    }
    hide ExecuteSelections, InitialSelections, PlainSelections, Keyed;
    TreeRefs(r, g, key, keyOf);
  }

  // ---- main theorem ----------------------------------------------------------------------------------------

  /** One root field of a request: the plan that was made for it, and the graph it is executed over. */
  datatype Scenario = Scenario(
    w: World, send: Send, keyOf: int -> Atom,
    kind: OperationType, ds: seq<VariableDefinition>, provided: map<string, Json>, f: Field,
    catalog: SupergraphCatalog, order: HashOrder, fetch: FieldFetch, typeName: string, initial: string)
  {
    /** The plan was made for this field, and guessed this type. */
    ghost predicate Planned() {
      && IterationOrder(order, catalog) && RoutesNamed(catalog) && typeName in catalog.entityTypes
      && PlanField(kind, ds, f, catalog, order) == Plan(fetch) && fetch.entityType == Some(typeName)
      && f.name in RootOwners(kind, catalog) && RootOwners(kind, catalog)[f.name] == initial
    }

    function Entity(): EntityType
      requires typeName in catalog.entityTypes
    {
      catalog.entityTypes[typeName]
    }

    function Vars(): map<string, Json> { Coerce(ds, provided) }

    function Found(): Resolved { RootResult(w, kind, initial, Vars(), f) }

    function Extenders(): seq<string>
      requires typeName in catalog.entityTypes
    {
      Contributing(f.selections, Entity(), initial, order.groups)
    }

    /** The guess is right, the type is keyed, every subgraph conforms, and what is sent can be read. */
    ghost predicate Readable() {
      && Planned()
      && Printable(f, Entity()) && IsName(typeName)
      && WellFormedVariables(ds) && ConstantDefaults(ds) && FieldVariables(f) <= DeclaredNames(ds)
      && Keyed(w, typeName, EntityKey(Entity()), keyOf, initial) && Conforms(send, w)
      && AllOfType(w, Ids(Found()), typeName)
    }

    /** And the selection can be stitched. */
    ghost predicate Sound() { Readable() && Stitchable(f, Entity(), initial) }

    /** The initial fetch holds no fragment spread. */
    ghost predicate InitialIsClear() { Readable() && SpreadFree(SentTo(f.selections, Entity(), initial, initial)) }

    /** The value of the initial fetch. */
    ghost function Base(): Json
      requires typeName in catalog.entityTypes
    {
      Tree(Found(), id => ExecuteSelections(w, initial, Vars(), id, InitialSelections(f.selections, Entity(), initial)))
    }

    ghost function InitialOutcome(): Outcome
      requires typeName in catalog.entityTypes
    {
      Answered(GraphQLResponse(Some(Object(map[ResponseKey(f) := Base()])), [], None))
    }

    function Result(): FieldFetchResult { FieldResult(fetch, Object(provided), None, send) }
  }

  lemma SoundIsClear(s: Scenario)
    requires s.Sound()
    ensures s.InitialIsClear()
  {
    SentIsAnswerable(s.f, s.Entity(), s.initial, s.initial);
    hide Scenario.Readable, SentTo, SpreadFree;
  }

  lemma InitialOutcomeIs(s: Scenario)
    requires s.Readable()
    ensures s.send(s.initial, s.fetch.initial.queryText,
                   SubsetVariables(Object(s.provided), s.fetch.initial.variableNames), None).0
         == if s.InitialIsClear() then s.InitialOutcome() else RequestError("invalid document")
  {
    PlanUnfolds(s.kind, s.ds, s.f, s.catalog, s.order, s.fetch, s.typeName, s.initial);
    hide PlanField, Printable, SynthesizeRootOperation, InitialText, VariablesIn, InitialSelections,
         ExecuteSelections, Keyed, Answer, RequestedKeys, Contributing, SentTo, WellFormedVariables, ConstantDefaults,
         IterationOrder, Tree, Ids, SpreadFree, FieldVariables, DeclaredNames;
    InitialAnswer(s.w, s.kind, s.ds, s.provided, s.f, s.Entity(), s.initial, s.fetch.initial.queryText);
  }

  lemma InitialRefsAre(s: Scenario)
    requires s.Readable()
    ensures Refs(s.Base(), EntityKey(s.Entity())) == KeysOf(Ids(s.Found()), s.keyOf)
  {
    hide PlanField, InitialSelections, ExecuteSelections, Keyed, WellFormedVariables, ConstantDefaults,
         IterationOrder, Tree, Ids, PlainSelections, WellFormedField, QuietField, DirectiveFree;
    InitialRefs(s.w, s.Entity(), s.initial, s.Vars(), s.f.selections, s.typeName, s.keyOf, s.Found());
  }

  /** The k-th entity fetch asks the k-th extender for the selections it owns. */
  lemma FetchAt(s: Scenario, k: nat)
    requires s.Planned() && k < |s.Extenders()|
    ensures var sg := s.Extenders()[k];
      && sg != s.initial && SentTo(s.f.selections, s.Entity(), s.initial, sg) != []
      && |s.fetch.entityFetches| == |s.Extenders()|
      && s.fetch.entityFetches[k].route.name == sg && s.fetch.entityFetches[k].typeName == s.typeName
      && s.fetch.entityFetches[k].fragmentBody == JoinSpace(Rendered(SentTo(s.f.selections, s.Entity(), s.initial, sg)))
  {
    hide PlanField, SynthesizeRootOperation, InitialText, VariablesIn, RequestedKeys, Contributing, SentTo, Covers,
         JoinSpace, Rendered;
    PlanUnfolds(s.kind, s.ds, s.f, s.catalog, s.order, s.fetch, s.typeName, s.initial);
    ContributorsCover(s.f.selections, s.Entity(), s.initial, s.order.groups);
  }

  lemma EntityOutcomeIs(s: Scenario, k: nat)
    requires s.Sound() && k < |s.Extenders()|
    ensures k < |s.fetch.entityFetches|
    ensures EntityCall(s.fetch.entityFetches[k], Representations(s.typeName, EntityKey(s.Entity()),
                                                                 KeysOf(Ids(s.Found()), s.keyOf)), s.send).outcome
         == EntityOutcome(s.w, s.Extenders()[k], s.Vars(), Ids(s.Found()),
                          SentTo(s.f.selections, s.Entity(), s.initial, s.Extenders()[k]))
  {
    FetchAt(s, k);
    hide PlanField, Stitchable, Keyed, Answer, Contributing, SentTo, WellFormedVariables, ConstantDefaults, Coerce,
         RootResult, IterationOrder, Ids, EntityOutcome, Representations, KeysOf, EntityQueryText, JoinSpace,
         Rendered, EntityVariables, RootOwners, RoutesNamed, AllOfType;
    EntityAnswer(s.w, s.f, s.Entity(), s.initial, s.typeName, s.Extenders()[k], s.Vars(), Ids(s.Found()), s.keyOf);
    var reps := Representations(s.typeName, EntityKey(s.Entity()), KeysOf(Ids(s.Found()), s.keyOf));
    var fetch := s.fetch.entityFetches[k];
    assert s.send(fetch.route.name, EntityQueryText(fetch.typeName, fetch.fragmentBody), EntityVariables(reps), None).0
        == Answer(s.w, fetch.route.name, EntityQueryText(fetch.typeName, fetch.fragmentBody), EntityVariables(reps),
                  None);
  }

  /** The field result: the initial answer, and the entity calls if there is an object to ask about. */
  lemma ClearResultIs(s: Scenario)
    requires s.InitialIsClear()
    ensures s.Result().field == s.fetch && s.Result().initial.outcome == s.InitialOutcome()
    ensures s.Result().entities
         == if s.Extenders() == [] || Ids(s.Found()) == [] then []
            else EntityCalls(s.fetch.entityFetches, Representations(s.typeName, EntityKey(s.Entity()),
                                                                    KeysOf(Ids(s.Found()), s.keyOf)), s.send)
  {
    hide PlanField, Printable, SynthesizeRootOperation, InitialText, VariablesIn, Keyed, Answer, Refs, RequestedKeys,
         Contributing, SentTo, WellFormedVariables, ConstantDefaults, Coerce, RootResult, IterationOrder, Ids, Tree,
         Representations, EntityCalls, SubsetVariables, KeysOf, JoinSpace, Rendered, Conforms, AllOfType, RoutesNamed,
         RootOwners, ExecuteSelections, InitialSelections, IsName, SpreadFree, FieldVariables, DeclaredNames;
    InitialOutcomeIs(s);
    InitialRefsAre(s);
    PlanUnfolds(s.kind, s.ds, s.f, s.catalog, s.order, s.fetch, s.typeName, s.initial);
    var base, ids := s.Base(), Ids(s.Found());
    assert EntityRefs(Some(Object(map[ResponseKey(s.f) := base])), ResponseKey(s.f), EntityKey(s.Entity()))
        == KeysOf(ids, s.keyOf);
    assert KeysOf(ids, s.keyOf) == [] <==> ids == [];
  }

  lemma ResultIs(s: Scenario)
    requires s.Sound()
    ensures s.Result().field == s.fetch && s.Result().initial.outcome == s.InitialOutcome()
    ensures s.Result().entities
         == if s.Extenders() == [] || Ids(s.Found()) == [] then []
            else EntityCalls(s.fetch.entityFetches, Representations(s.typeName, EntityKey(s.Entity()),
                                                                    KeysOf(Ids(s.Found()), s.keyOf)), s.send)
  {
    SoundIsClear(s);
    hide Scenario.InitialIsClear, Scenario.Result, Scenario.Found, Scenario.InitialOutcome, Stitchable, Printable,
         EntityCalls, Representations, KeysOf, Contributing, Ids, Keyed;
    ClearResultIs(s);
  }

  /** The merged value before stripping: every object holds what its owners supply. */
  lemma ValueIsGathered(s: Scenario)
    requires s.Sound()
    ensures Merge.EntityValues(s.Base(), s.Result().entities)
         == Tree(s.Found(), id => Gathered(s.w, s.Entity(), s.initial, s.Vars(), id, s.f.selections, s.Extenders()))
    ensures Merge.AllEntityErrors(ResponseKey(s.f), s.Result().entities) == []
  {
    hide PlanField, Stitchable, SynthesizeRootOperation, InitialText, VariablesIn, Contributing, SentTo, FieldResult,
         Keyed, Conforms, AllOfType, IterationOrder, RoutesNamed, WellFormedVariables, ConstantDefaults, RootOwners,
         Coerce, RootResult, Tree, Ids, Gathered, Representations, EntityCalls, KeysOf;
    ResultIs(s);
    if s.Extenders() != [] && Ids(s.Found()) != [] {
      AllGathered(s);
    } else {
      NothingToGather(s);
    }
  }

  lemma NothingToGather(s: Scenario)
    requires s.Sound() && (s.Extenders() == [] || Ids(s.Found()) == [])
    ensures s.Base() == Tree(s.Found(), id => Gathered(s.w, s.Entity(), s.initial, s.Vars(), id, s.f.selections,
                                                       s.Extenders()))
  {
    hide PlanField, Stitchable, SynthesizeRootOperation, InitialText, VariablesIn, Contributing, SentTo, FieldResult,
         Keyed, Conforms, AllOfType, IterationOrder, RoutesNamed, WellFormedVariables, ConstantDefaults, RootOwners,
         Coerce, RootResult, ExecuteSelections, InitialSelections;
    TreesEqual(s.Found(), id => ExecuteSelections(s.w, s.initial, s.Vars(), id,
                                                  InitialSelections(s.f.selections, s.Entity(), s.initial)),
               id => Gathered(s.w, s.Entity(), s.initial, s.Vars(), id, s.f.selections, s.Extenders()));
  }

  lemma AllGathered(s: Scenario)
    requires s.Sound() && s.Extenders() != [] && Ids(s.Found()) != []
    ensures Merge.EntityValues(s.Base(), s.Result().entities)
         == Tree(s.Found(), id => Gathered(s.w, s.Entity(), s.initial, s.Vars(), id, s.f.selections, s.Extenders()))
    ensures Merge.AllEntityErrors(ResponseKey(s.f), s.Result().entities) == []
  {
    hide PlanField, Stitchable, SynthesizeRootOperation, InitialText, VariablesIn, Contributing, SentTo, FieldResult,
         Keyed, Conforms, AllOfType, IterationOrder, RoutesNamed, WellFormedVariables, ConstantDefaults, RootOwners,
         Coerce, RootResult, Tree, Ids, Gathered, KeysOf, Representations, EntityOutcome, EntityCall,
         ExecuteSelections, InitialSelections;
    ResultIs(s);
    var sels, entity, sgs := s.f.selections, s.Entity(), s.Extenders();
    FetchAt(s, 0);
    forall k | 0 <= k < |sgs|
      ensures s.Result().entities[k].outcome
           == EntityOutcome(s.w, sgs[k], s.Vars(), Ids(s.Found()), SentTo(sels, entity, s.initial, sgs[k]))
    {
      EntityOutcomeIs(s, k);
    }
    EntitiesGathered(s.w, entity, s.initial, s.Vars(), sels, sgs, s.Result().entities, s.Found());
  }

  lemma StrippedIsDirect(s: Scenario)
    requires s.Sound() && Unaliased(s.f.selections, s.Entity())
    ensures var drops := Drops(s.f.selections, s.Entity());
      Merge.Stripped(Tree(s.Found(), id => Gathered(s.w, s.Entity(), s.initial, s.Vars(), id, s.f.selections,
                                                    s.Extenders())), drops)
      == Merge.Stripped(DirectValue(s.w, s.kind, s.Entity(), s.initial, s.Vars(), s.f), drops)
  {
    ContributorsCover(s.f.selections, s.Entity(), s.initial, s.order.groups);
    hide PlanField, Keyed, Contributing, SentTo, Covers, Coerce, RootResult, Gathered, Merge.Stripped, DirectFields,
         WellFormedVariables, ConstantDefaults, StrippedFields, PlainSelections, WellFormedField, QuietField,
         DirectiveFree, Drops, FieldVariables, DeclaredNames, SpreadFree, VariableFreeExtenders, Unaliased;
    var drops := Drops(s.f.selections, s.Entity());
    var all := id => Gathered(s.w, s.Entity(), s.initial, s.Vars(), id, s.f.selections, s.Extenders());
    var direct := id => DirectFields(s.w, s.Entity(), s.initial, s.Vars(), id, s.f.selections);
    TreeStrips(s.Found(), all, drops);
    TreeStrips(s.Found(), direct, drops);
    forall id ensures StrippedFields(all(id), drops) == StrippedFields(direct(id), drops) {
      ObjectStitched(s.w, s.Entity(), s.initial, s.Vars(), id, s.f.selections, s.Extenders());
    }
    TreesEqual(s.Found(), id => StrippedFields(all(id), drops), id => StrippedFields(direct(id), drops));
  }

  lemma MergedIsStripped(s: Scenario)
    requires s.Sound()
    ensures Merge.FieldValue(s.Result())
         == Merge.Stripped(Tree(s.Found(), id => Gathered(s.w, s.Entity(), s.initial, s.Vars(), id, s.f.selections,
                                                          s.Extenders())),
                           Merge.DroppedKeys(s.fetch))
  {
    ResultIs(s);
    ValueIsGathered(s);
    PlanUnfolds(s.kind, s.ds, s.f, s.catalog, s.order, s.fetch, s.typeName, s.initial);
    hide PlanField, Stitchable, Keyed, Coerce, RootResult, FieldResult, Gathered, Merge.Stripped, Contributing,
         SentTo, Conforms, Merge.EntityValues, Merge.AllEntityErrors, SynthesizeRootOperation, InitialText,
         VariablesIn, IterationOrder, RoutesNamed, WellFormedVariables, ConstantDefaults, JoinSpace, Rendered,
         RequestedKeys, AllOfType, Tree;
    TakesBase(ResponseKey(s.f), s.Base());
  }

  /** Whatever the value is, no error is reported. */
  lemma StitchedWithoutErrors(s: Scenario)
    requires s.Sound()
    ensures Merge.FieldErrors(s.Result()) == []
  {
    ResultIs(s);
    ValueIsGathered(s);
    hide PlanField, Stitchable, Keyed, Conforms, AllOfType, IterationOrder, RoutesNamed, WellFormedVariables,
         ConstantDefaults, RootOwners, FieldResult, RootResult, Coerce, Gathered, Tree, Ids, Merge.AllEntityErrors,
         Merge.EntityValues, EntityCalls, Representations, KeysOf, Contributing;
    PlannedKey(s);
  }

  lemma PlannedKey(s: Scenario)
    requires s.Planned()
    ensures s.fetch.responseKey == ResponseKey(s.f)
  {
    hide PlanField, SynthesizeRootOperation, InitialText, VariablesIn, RequestedKeys, Contributing, SentTo, JoinSpace,
         Rendered;
    PlanUnfolds(s.kind, s.ds, s.f, s.catalog, s.order, s.fetch, s.typeName, s.initial);
  }

  /**
   * Taking `drops` out of a directly evaluated object leaves it as it is if no selection is
   * answered under one of them.
   */
  lemma DirectObjectIsKept(w: World, entity: EntityType, initial: string, vars: map<string, Json>, id: int,
                           sels: seq<Selection>, drops: set<string>)
    requires DistinctFields(sels) && Clean(sels, drops)
    ensures StrippedFields(DirectFields(w, entity, initial, vars, id, sels), drops)
         == DirectFields(w, entity, initial, vars, id, sels)
  {
    hide ExecuteField, DirectFields, Merge.Stripped, Resolver;
    var direct := DirectFields(w, entity, initial, vars, id, sels);
    DirectlyResolved(w, entity, initial, vars, id, sels);
    forall r | r in direct ensures r !in drops && Merge.Stripped(direct[r], drops) == direct[r] {
      var i := DirectKeyIsSelected(w, entity, initial, vars, id, sels, r);
      assert CleanSelection(sels[i], drops);
      CleanFieldIsKept(w, Resolver(entity, initial, sels[i].field), vars, id, sels[i].field, drops);
    }
  }

  lemma DirectValueIsKept(w: World, kind: OperationType, entity: EntityType, initial: string, vars: map<string, Json>,
                          f: Field, drops: set<string>)
    requires DistinctFields(f.selections) && Clean(f.selections, drops)
    ensures Merge.Stripped(DirectValue(w, kind, entity, initial, vars, f), drops)
         == DirectValue(w, kind, entity, initial, vars, f)
  {
    hide Merge.Stripped, DirectFields, StrippedFields, RootResult, Clean;
    var found := RootResult(w, kind, initial, vars, f);
    var direct := id => DirectFields(w, entity, initial, vars, id, f.selections);
    TreeStrips(found, direct, drops);
    forall id ensures StrippedFields(direct(id), drops) == direct(id) {
      DirectObjectIsKept(w, entity, initial, vars, id, f.selections, drops);
    }
    TreesEqual(found, id => StrippedFields(direct(id), drops), direct);
  }

  /**
   * For any list or object shape and any order of the extenders, the merged value of a root field is
   * the one that direct evaluation of its selection gives, less the names that the merger strips.
   */
  lemma StitchedIsStripped(s: Scenario)
    requires s.Sound() && Unaliased(s.f.selections, s.Entity())
    requires s.fetch.entityFetches != [] || EntityKey(s.Entity()) == "id"
    ensures Merge.FieldValue(s.Result())
         == Merge.Stripped(DirectValue(s.w, s.kind, s.Entity(), s.initial, s.Vars(), s.f),
                           Drops(s.f.selections, s.Entity()))
  {
    MergedIsStripped(s);
    StrippedIsDirect(s);
    KeyFieldIs(s);
    hide Scenario.Sound, Scenario.Result, Scenario.Vars, Scenario.Found, Scenario.Extenders, Merge.FieldValue,
         Merge.FieldErrors, Merge.Stripped, DirectValue, Gathered, Tree, Unaliased;
  }

  /** Where no selection is answered under a name that the merger strips, at any depth, it is that value itself. */
  lemma StitchedEqualsDirect(s: Scenario)
    requires s.Sound() && Unaliased(s.f.selections, s.Entity())
    requires s.fetch.entityFetches != [] || EntityKey(s.Entity()) == "id"
    requires Clean(s.f.selections, Drops(s.f.selections, s.Entity()))
    ensures Merge.FieldValue(s.Result()) == DirectValue(s.w, s.kind, s.Entity(), s.initial, s.Vars(), s.f)
    ensures Merge.FieldErrors(s.Result()) == []
  {
    StitchedWithoutErrors(s);
    StitchedIsStripped(s);
    SelectionsAreDistinct(s);
    hide Scenario.Sound, Scenario.Result, Scenario.Vars, Scenario.Found, Scenario.Extenders, Merge.FieldValue,
         Merge.FieldErrors, Merge.Stripped, DirectValue, Unaliased, Clean, Drops;
    DirectValueIsKept(s.w, s.kind, s.Entity(), s.initial, s.Vars(), s.f, Drops(s.f.selections, s.Entity()));
  }

  lemma SelectionsAreDistinct(s: Scenario)
    requires s.Readable()
    ensures DistinctFields(s.f.selections)
  {
    hide PlanField, Keyed, Conforms, AllOfType, WellFormedField, QuietField, DirectiveFree, PlainField, FieldVariables,
         DeclaredNames;
  }

  lemma TakesBase(key: string, value: Json)
    ensures Merge.TakeField(Some(Object(map[key := value])), key) == value
  {
  }

  lemma KeyFieldIs(s: Scenario)
    requires s.Planned() && (s.fetch.entityFetches != [] || EntityKey(s.Entity()) == "id")
    ensures KeyField(s.fetch) == EntityKey(s.Entity()) && s.fetch.responseKey == ResponseKey(s.f)
    ensures s.fetch.clientRequestedIdKeys == RequestedKeys(s.f.selections, s.Entity())
  {
    hide PlanField, SynthesizeRootOperation, InitialText, VariablesIn, RequestedKeys, Contributing, SentTo, JoinSpace,
         Rendered;
    PlanUnfolds(s.kind, s.ds, s.f, s.catalog, s.order, s.fetch, s.typeName, s.initial);
  }
}
