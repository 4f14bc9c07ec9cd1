/**
 * A small federated graph that meets the conditions of the main theorems: one entity type with a
 * key, a list of objects at the root, a field in its owner and one in an extender.
 */
module Example {
  import opened Common
  import opened Ast
  import opened Scanners
  import opened Synthesis
  import opened Responses
  import opened Fetches
  import opened Catalog
  import opened Planner
  import opened Executor
  import opened Evaluation
  import opened Trees
  import opened Federation
  import opened Stitching
  import opened Boundary
  import opened Pipeline
  import opened Server
  import Cost
  import Cache

  // ---- the supergraph --------------------------------------------------------------------

  const HOTEL := EntityType("Hotel", ["id"], "s", [EntityExtender("t", ["r"])],
                            map["id" := "s", "a" := "s", "r" := "t"])

  const CATALOG := SupergraphCatalog(
    map["s" := Route("s", "", 0), "t" := Route("t", "", 0)], map["p" := "s"], map[], map["Hotel" := HOTEL], map[])

  const ORDER := HashOrder(["Hotel"], ["s", "t"])

  /** `{ p { a r } }` */
  const P := Field(None, "p", [], [], [Bare("a"), Bare("r")])

  const OPERATION := Operation(Query, None, [], [FieldSel(P)])

  // ---- the graph ---------------------------------------------------------------------------

  function KeyOf(id: int): Atom { Text(if id < 0 then seq(-id, _ => '-') else seq(id, _ => '+')) }

  ghost function Asked(ids: seq<int>): map<string, Json> {
    EntityVariables(Representations("Hotel", "id", KeysOf(ids, KeyOf)))
  }

  lemma KeysAreDistinct(a: int, b: int)
    requires KeyOf(a) == KeyOf(b)
    ensures a == b
  {
    var s, t := KeyOf(a).s, KeyOf(b).s;
    assert |s| == if a < 0 then -a else a;
    assert |t| == if b < 0 then -b else b;
    assert a != 0 ==> s[0] == if a < 0 then '-' else '+';
    assert b != 0 ==> t[0] == if b < 0 then '-' else '+';
  }

  lemma AskedTellsApart(a: seq<int>, b: seq<int>)
    requires Asked(a) == Asked(b)
    ensures a == b
  {
    var x, y := Representations("Hotel", "id", KeysOf(a, KeyOf)), Representations("Hotel", "id", KeysOf(b, KeyOf));
    assert Asked(a)["representations"] == Array(x) && Asked(b)["representations"] == Array(y);
    forall i | 0 <= i < |a| ensures a[i] == b[i] {
      assert x[i] == Representation("Hotel", "id", Leaf(KeyOf(a[i])))
             && y[i] == Representation("Hotel", "id", Leaf(KeyOf(b[i])));
      assert x[i].fields["id"] == y[i].fields["id"];
      KeysAreDistinct(a[i], b[i]);
    }
  }

  /** The root field lists two hotels; the other fields are scalars that show where they come from. */
  ghost function Resolve(sg: string, id: int, name: string, args: map<string, Json>): Resolved {
    if name == "_entities" then
      if ids :| Asked(ids) == args then Many(Entities(ids)) else Absent
    else if name == "id" then Scalar(KeyOf(id))
    else if name == "p" then Many([Entity(7), Entity(8)])
    else Scalar(Text(sg + name))
  }

  ghost function Graph(): World {
    World((sg, id, name, args) => Resolve(sg, id, name, args), id => "Hotel", (id, ty) => true)
  }

  ghost function Network(): Send { (sg, text, vars, name) => (Answer(Graph(), sg, text, vars, name), 0) }

  // ---- its conditions --------------------------------------------------------------------------

  lemma HotelsAreKeyed()
    ensures Keyed(Graph(), "Hotel", "id", KeyOf, "s")
  {
    forall sg: string, ids: seq<int>
      ensures Graph().resolve(sg, QUERY_ROOT, "_entities",
                              EntityVariables(Representations("Hotel", "id", KeysOf(ids, KeyOf))))
                             == Many(Entities(ids))
    {
      HotelsAreFound(sg, ids);
      assert Asked(ids) == EntityVariables(Representations("Hotel", "id", KeysOf(ids, KeyOf)));
      hide Asked, Resolve, EntityVariables, Representations, Entities;
    }
  }

  lemma HotelsAreFound(sg: string, ids: seq<int>)
    ensures Resolve(sg, QUERY_ROOT, "_entities", Asked(ids)) == Many(Entities(ids))
  {
    hide Asked;
    forall other: seq<int> | Asked(other) == Asked(ids) ensures other == ids {
      AskedTellsApart(other, ids);
    }
  }

  lemma OrderIsLawful()
    ensures IterationOrder(ORDER, CATALOG)
  {
  }

  lemma HotelIsGuessed()
    ensures BestType(P.selections, CATALOG, ORDER.types) == Some("Hotel")
  {
    var a, r := Bare("a"), Bare("r");
    assert P.selections == [a, r] && P.selections[1..] == [r] && [r][1..] == [];
    assert Score([], HOTEL) == 0 && Score([r], HOTEL) == 1 && Score(P.selections, HOTEL) == 2;
    assert ORDER.types[..0] == [];
    assert BestType(P.selections, CATALOG, []) == None;
  }

  lemma SentSelections()
    ensures SentTo(P.selections, HOTEL, "s", "s") == [Bare("a")] && SentTo(P.selections, HOTEL, "s", "t") == [Bare("r")]
  {
    var a, r := Bare("a"), Bare("r");
    assert SentTo([], HOTEL, "s", "s") == [] && SentTo([], HOTEL, "s", "t") == [];
    assert EntityKey(HOTEL) == "id" && OwnerOf(HOTEL, "a", "s") == "s" && OwnerOf(HOTEL, "r", "s") == "t";
    assert Sent(a, "id") && Sent(r, "id");
    hide SentTo, OwnerOf, EntityKey, Sent;
    SentToStep([], a, HOTEL, "s", "s");
    SentToStep([], a, HOTEL, "s", "t");
    SentToStep([a], r, HOTEL, "s", "s");
    SentToStep([a], r, HOTEL, "s", "t");
    assert [] + [a] == [a] && [a] + [r] == P.selections;
  }

  lemma FieldIsPlanned()
    ensures IterationOrder(ORDER, CATALOG)
    ensures PlanField(Query, [], P, CATALOG, ORDER).Plan?
    ensures var fetch := PlanField(Query, [], P, CATALOG, ORDER).value;
      fetch.entityType == Some("Hotel") && |fetch.entityFetches| == 1
  {
    OrderIsLawful();
    HotelIsGuessed();
    SentSelections();
    hide SentTo, BestType, SynthesizeRootOperation, InitialText, VariablesIn, JoinSpace, Rendered, RequestedKeys,
         LooksLikeList;
    var sels := P.selections;
    assert ORDER.groups[..1] == ["s"] && ["s"][..0] == [];
    assert EntityFetches(sels, "Hotel", HOTEL, "s", CATALOG, []) == Plan([]);
    assert EntityFetches(sels, "Hotel", HOTEL, "s", CATALOG, ["s"]) == Plan([]);
    assert EntityFetches(sels, "Hotel", HOTEL, "s", CATALOG, ORDER.groups).Plan?;
  }

  lemma FieldIsStitchable()
    ensures Stitchable(P, HOTEL, "s")
  {
    assert IsName("p") && IsName("a") && IsName("r") && IsName("id");
    BareFieldIsPlain("a");
    BareFieldIsPlain("r");
    assert P.selections[0] == Bare("a") && P.selections[1] == Bare("r");
    assert SpreadFree(P.selections);
    SelectionsArePlain();
    hide IsName, PlainSelections, WellFormedSelection, QuietSelection, DirectiveFreeSelection, FieldVariables;
  }

  lemma NoVariables()
    ensures FieldVariables(P) <= DeclaredNames([])
  {
    var a, r := Bare("a"), Bare("r");
    assert P.selections[1..] == [r] && [r][1..] == [];
    assert SelectionVariables(a) == {} && SelectionVariables(r) == {} && SelectionsVariables([]) == {};
  }

  lemma SelectionsArePlain()
    ensures PlainSelections(P.selections, HOTEL)
  {
    var a, r := Bare("a"), Bare("r");
    BareFieldIsPlain("a");
    BareFieldIsPlain("r");
    assert ResponseKey(a.field) == "a" && ResponseKey(r.field) == "r";
    assert P.selections[0] == a && P.selections[1] == r;
  }

  lemma BareFieldIsPlain(name: string)
    requires IsName(name)
    ensures WellFormedSelection(Bare(name)) && QuietSelection(Bare(name)) && DirectiveFreeSelection(Bare(name))
    ensures FieldVariables(Bare(name).field) == {} && forall drops :: Clean(Bare(name).field.selections, drops)
  {
  }

  ghost function Case(): Scenario
    requires IterationOrder(ORDER, CATALOG) && PlanField(Query, [], P, CATALOG, ORDER).Plan?
  {
    Scenario(Graph(), Network(), KeyOf, Query, [], map[], P, CATALOG, ORDER,
             PlanField(Query, [], P, CATALOG, ORDER).value, "Hotel", "s")
  }

  /** The conditions of the stitching theorem can be met, with objects found and an extender asked about them. */
  lemma ConditionsCanBeMet()
    ensures IterationOrder(ORDER, CATALOG) && PlanField(Query, [], P, CATALOG, ORDER).Plan?
    ensures Case().Sound() && Case().fetch.entityFetches != [] && Ids(Case().Found()) == [7, 8]
  {
    FieldIsPlanned();
    FieldIsStitchable();
    HotelsAreKeyed();
    NoVariables();
    hide PlanField, Printable, SpreadFree, VariableFreeExtenders, Keyed, IterationOrder, FieldVariables, DeclaredNames;
    assert IsName("Hotel");
    var s := Case();
    assert s.Entity() == HOTEL && s.Vars() == map[];
    assert s.Found() == Many([Entity(7), Entity(8)]);
    assert [Entity(7), Entity(8)][1..] == [Entity(8)] && [Entity(8)][1..] == [];
    assert Ids(Entity(7)) == [7] && Ids(Entity(8)) == [8];
    assert IdsOf([]) == [] && IdsOf([Entity(8)]) == [8];
  }

  // ---- a site, a request, and a hit ----------------------------------------------------------------

  const DOCUMENT := Document([OperationDefinition(OPERATION)])

  function Router(): Site {
    Site((r: Request) => Some(r.query), text => if text == "q" then Some(DOCUMENT) else None, _ => true, _ => "",
         CATALOG, map[], Cost.Depths(OPERATION.selections, 1), U32_MAX, true,
             Cache.CacheConfig(true, "redis", 30, 30, 30, 30))
  }

  const ASKING := Request("q", None, Object(map[]), "guest", false)

  const ORDERS: nat -> HashOrder := i => ORDER

  ghost function Earlier(): Finish { Finish(ASKING, ORDERS, Network(), 0, false) }

  lemma OperationIsPicked()
    ensures PickOperation(DOCUMENT, None) == Plan(OPERATION) && !NamesEmpty(DOCUMENT)
    ensures Prepared(Router(), ASKING) == Some(Parsed("q", DOCUMENT)) && UsesCache(Router(), ASKING)
  {
    assert DOCUMENT.definitions[1..] == [] && Operations([]) == [];
    assert Operations(DOCUMENT.definitions) == [OPERATION];
    assert [OPERATION][1..] == [] && FindOperation([], "") == None;
  }

  lemma OperationRuns()
    ensures LawfulOrders(Router(), ORDERS) && Compute(Router(), ASKING, DOCUMENT, ORDERS, Network()).Ran?
    ensures Compute(Router(), ASKING, DOCUMENT, ORDERS, Network()).plan.operationType == Query
  {
    OperationIsPicked();
    FieldIsPlanned();
    Cost.AcceptedExactly(DOCUMENT, None, map[], Router().maxDepth, U32_MAX, OPERATION);
    var sels := OPERATION.selections;
    assert sels[..0] == [] && PlanSelections(Query, [], [], CATALOG, ORDERS) == Plan([]);
    assert sels[0] == FieldSel(P) && IsPlanned(sels[0]);
    hide PlanField, IterationOrder, PickOperation, Cost.Analyzed, Cost.Depths, Results, MergedBody;
    assert PlanSelections(Query, [], sels, CATALOG, ORDERS).Plan?;
  }

  lemma OperationIsDescribed()
    ensures IterationOrder(ORDER, CATALOG) && PlanField(Query, [], P, CATALOG, ORDER).Plan?
    ensures DescribeAll([Guessed(Case())], Router(), OPERATION, map[], ORDERS, Network())
            && AllComeOut([Guessed(Case())])
  {
    CaseComesOut();
    hide PlanField, IterationOrder, RootField.Sound, RootField.ComesOut;
    assert Guessed(Case()).Key() == "p";
  }

  lemma CaseComesOut()
    ensures IterationOrder(ORDER, CATALOG) && PlanField(Query, [], P, CATALOG, ORDER).Plan?
    ensures Guessed(Case()).Sound() && Guessed(Case()).ComesOut()
  {
    ConditionsCanBeMet();
    NothingIsStripped();
    assert Case().Entity() == HOTEL;
    hide PlanField, IterationOrder, Clean, Unaliased, Drops, Stitches, Scenario.Sound;
    CleanStitches(Case());
  }

  lemma NothingIsStripped()
    ensures Unaliased(P.selections, HOTEL) && Clean(P.selections, Drops(P.selections, HOTEL))
  {
    var a, r := Bare("a"), Bare("r");
    assert P.selections[0] == a && P.selections[1] == r;
    assert Drops(P.selections, HOTEL) <= {"__typename", "id"};
    assert ResponseKey(a.field) == "a" && ResponseKey(r.field) == "r";
    BareFieldIsPlain("a");
    BareFieldIsPlain("r");
  }

  lemma CodingIsSound()
    ensures SoundCoding(Router(), [Earlier()], ASKING) && SeparatorKeptOut([Earlier()], ASKING)
  {
    OperationIsPicked();
    assert Cache.Unseparated("q") && Cache.Unseparated("guest");
  }

  ghost function Told(): GraphQLResponse
    requires LawfulOrders(Router(), ORDERS) && Compute(Router(), ASKING, DOCUMENT, ORDERS, Network()).Ran?
  {
    Compute(Router(), ASKING, DOCUMENT, ORDERS, Network()).body
  }

  lemma ToldDirectly()
    ensures LawfulOrders(Router(), ORDERS) && Compute(Router(), ASKING, DOCUMENT, ORDERS, Network()).Ran?
    ensures IterationOrder(ORDER, CATALOG) && PlanField(Query, [], P, CATALOG, ORDER).Plan?
    ensures AnswersDirectly(Told(), [Guessed(Case())]) && Told().errors == [] && Told().data.Some?
  {
    OperationIsPicked();
    OperationRuns();
    OperationIsDescribed();
    hide Case, PlanField, IterationOrder, Compute, LawfulOrders, NamesEmpty, PickOperation, DescribeAll,
         RootField.Sound, RootField.ComesOut, Prepared, UsesCache, Parts, Network;
    PipelineEqualsDirect(Router(), ASKING, DOCUMENT, ORDERS, Network(), OPERATION, map[], [Guessed(Case())]);
  }

  lemma EarlierWrites()
    ensures LawfulOrders(Router(), ORDERS) && Compute(Router(), ASKING, DOCUMENT, ORDERS, Network()).Ran?
    ensures var w := Written(Router(), Earlier());
      w.Some? && w.value.body == Told() && w.value.parts == Parts(Router(), ASKING, Parsed("q", DOCUMENT))
  {
    OperationIsPicked();
    OperationRuns();
    ToldDirectly();
    hide Case, PlanField, IterationOrder, Compute, LawfulOrders, NamesEmpty, PickOperation, AnswersDirectly, Router,
         Prepared, UsesCache, Parts, Network;
  }

  /**
   * The conditions of the pipeline and cache theorems can be met: an earlier request is answered
   * directly, and the same request at the same time hits what it wrote.
   */
  lemma HitCanHappen()
    ensures IterationOrder(ORDER, CATALOG) && PlanField(Query, [], P, CATALOG, ORDER).Plan?
    ensures Lawful(Router(), [Earlier()]) && SoundCoding(Router(), [Earlier()], ASKING)
            && SeparatorKeptOut([Earlier()], ASKING)
    ensures Prepared(Router(), ASKING) == Some(Parsed("q", DOCUMENT))
    ensures var hit := Lookup(Router(), After(Router(), map[], [Earlier()]), ASKING, Parsed("q", DOCUMENT), 0, false);
      hit.Some? && AnswersDirectly(hit.value, [Guessed(Case())])
  {
    CodingIsSound();
    OperationIsPicked();
    ToldDirectly();
    EarlierWrites();
    hide Case, PlanField, IterationOrder, Compute, LawfulOrders, NamesEmpty, SoundCoding, SeparatorKeptOut, Written,
         AnswersDirectly, Told, Lookup, After, Router, Prepared, UsesCache, Cache.Lifetime, Cache.CacheKey;
    var events := [Earlier()];
    var w := Written(Router(), Earlier()).value;
    Cache.LifetimeIsTheSmallest(w.fields, Router().cache);
    assert LastWrite(Router(), events, w.parts.Key(), 0);
    FoundExactly(Router(), events, ASKING, Parsed("q", DOCUMENT), 0, Told());
  }
}
