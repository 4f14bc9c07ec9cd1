/** The join directives of a supergraph: who owns a type, who extends it, and by which key (supergraph/catalog.rs). */
module Joins {
  import opened Common
  import opened Ast

  // ---- as the catalogue reads them -------------------------------------------------------------

  /** The subgraph that a `graph:` argument names, through the `join__Graph` lookup. */
  function GraphName(v: Value, lookup: map<string, string>): Option<string> {
    match v
    case EnumLit(n) => Some(if n in lookup then lookup[n] else n)
    case StringLit(s) => Some(s)
    case _ => None
  }

  function FindArgument(args: seq<Argument>, name: string): Option<Value> {
    if args == [] then None
    else if args[0].name == name then Some(args[0].value)
    else FindArgument(args[1..], name)
  }

  function GraphArgument(d: Directive, lookup: map<string, string>): Option<string> {
    match FindArgument(d.arguments, "graph")
    case Some(v) => GraphName(v, lookup)
    case None => None
  }

  /** The graph of the first `@join__field` that names one. */
  function FirstGraph(ds: seq<Directive>, lookup: map<string, string>): Option<string> {
    if ds == [] then None
    else
      var named := if ds[0].name == "join__field" then GraphArgument(ds[0], lookup) else None;
      if named.Some? then named else FirstGraph(ds[1..], lookup)
  }

  /** That graph, or else the type's owner. */
  function ResolvedOwner(ds: seq<Directive>, lookup: map<string, string>, owner: string): string {
    FirstGraph(ds, lookup).GetOr(owner)
  }

  predicate IsBlank(c: char) { c in " \t\n\r" }

  function SplitWhitespace(s: string, word: string): seq<string>
    decreases |s|
  {
    var flush := if word == "" then [] else [word];
    if s == [] then flush
    else if IsBlank(s[0]) then flush + SplitWhitespace(s[1..], "")
    else SplitWhitespace(s[1..], word + [s[0]])
  }

  // ---- @join__type directives of one type --------------------------------------------

  datatype JoinType = JoinType(graph: Option<string>, key: Option<string>, extension: bool)

  function ReadJoinType(args: seq<Argument>, lookup: map<string, string>): JoinType {
    if args == [] then JoinType(None, None, false)
    else
      var r, last := ReadJoinType(args[..|args| - 1], lookup), args[|args| - 1];
      match (last.name, last.value)
      case ("graph", EnumLit(_)) => r.(graph := GraphName(last.value, lookup))
      case ("key", StringLit(s)) => r.(key := Some(s))
      case ("extension", BoolLit(b)) => r.(extension := b)
      case _ => r
  }

  /** What the `@join__type` directives read so far say about a type. */
  datatype Ownership = Ownership(owner: Option<string>, extenders: seq<string>, keyFields: seq<string>)

  function OwnershipOf(ds: seq<Directive>, lookup: map<string, string>): Ownership {
    if ds == [] then Ownership(None, [], [])
    else
      var r, last := OwnershipOf(ds[..|ds| - 1], lookup), ds[|ds| - 1];
      var join := ReadJoinType(last.arguments, lookup);
      if last.name != "join__type" || join.graph.None? then r
      else
        var r' := if join.key.Some? && r.keyFields == []
                  then r.(keyFields := SplitWhitespace(join.key.value, "")) else r;
        if join.extension then r'.(extenders := r'.extenders + [join.graph.value])
        else r'.(owner := join.graph)
  }

  // ---- first, last and in order ------------------------------------------------------------------

  predicate LastWith<T>(s: seq<T>, i: int, p: T -> bool) {
    0 <= i < |s| && p(s[i]) && forall j :: i < j < |s| ==> !p(s[j])
  }

  predicate FirstWith<T>(s: seq<T>, i: int, p: T -> bool) {
    0 <= i < |s| && p(s[i]) && forall j :: 0 <= j < i ==> !p(s[j])
  }

  predicate NoneWith<T>(s: seq<T>, p: T -> bool) { forall i :: 0 <= i < |s| ==> !p(s[i]) }

  /** The positions at which `p` holds, in ascending order. */
  ghost predicate PositionsWith<T>(at: seq<nat>, s: seq<T>, p: T -> bool) {
    && (forall k :: 0 <= k < |at| ==> at[k] < |s|)
    && (forall k, l :: 0 <= k < l < |at| ==> at[k] < at[l])
    && forall i :: 0 <= i < |s| ==> (i in at <==> p(s[i]))
  }

  lemma OneMore<T>(s: seq<T>, x: T, p: T -> bool)
    ensures NoneWith(s + [x], p) <==> NoneWith(s, p) && !p(x)
    ensures forall i :: LastWith(s + [x], i, p) <==> if p(x) then i == |s| else LastWith(s, i, p)
    ensures forall i :: FirstWith(s + [x], i, p) <==> FirstWith(s, i, p) || (i == |s| && p(x) && NoneWith(s, p))
  {
    var t := s + [x];
    assert t[|s|] == x && forall i :: 0 <= i < |s| ==> t[i] == s[i];
  }

  lemma OneMorePosition<T>(at: seq<nat>, s: seq<T>, x: T, p: T -> bool)
    requires PositionsWith(at, s, p)
    ensures PositionsWith(if p(x) then at + [|s|] else at, s + [x], p)
  {
  }

  lemma NoPositions<T>(p: T -> bool)
    ensures PositionsWith([], [], p)
  {
  }

  lemma PositionsExist<T>(at: seq<nat>, s: seq<T>, p: T -> bool)
    requires PositionsWith(at, s, p)
    ensures forall k :: 0 <= k < |at| ==> at[k] < |s|
  {
  }

  lemma {:induction false} SomeLast<T>(s: seq<T>, p: T -> bool)
    ensures NoneWith(s, p) <==> !exists i :: LastWith(s, i, p)
  {
    if s != [] {
      var n := |s| - 1;
      SomeLast(s[..n], p);
      OneMore(s[..n], s[n], p);
      assert s == s[..n] + [s[n]];
      assert p(s[n]) ==> LastWith(s, n, p);
    }
  }

  // ---- what the arguments of `@join__type` say -----------------------------------------------------

  predicate SetsGraph(a: Argument) { a.name == "graph" && a.value.EnumLit? }

  predicate SetsKey(a: Argument) { a.name == "key" && a.value.StringLit? }

  predicate SetsExtension(a: Argument) { a.name == "extension" && a.value.BoolLit? }

  /** The subgraph that an enum value stands for; a value that is not declared stands for itself. */
  function Subgraph(enumValue: string, lookup: map<string, string>): string {
    if enumValue in lookup then lookup[enumValue] else enumValue
  }

  ghost predicate GraphIs(args: seq<Argument>, lookup: map<string, string>, graph: string) {
    exists i :: LastWith(args, i, SetsGraph) && graph == Subgraph(args[i].value.name, lookup)
  }

  ghost predicate KeyIs(args: seq<Argument>, key: string) {
    exists i :: LastWith(args, i, SetsKey) && key == args[i].value.text
  }

  ghost predicate SaysExtension(args: seq<Argument>) { exists i :: LastWith(args, i, SetsExtension) && args[i].value.b }

  lemma OneMoreArgument(args: seq<Argument>, a: Argument, lookup: map<string, string>)
    ensures forall graph :: GraphIs(args + [a], lookup, graph) <==>
      if SetsGraph(a) then graph == Subgraph(a.value.name, lookup) else GraphIs(args, lookup, graph)
    ensures forall key :: KeyIs(args + [a], key) <==> if SetsKey(a) then key == a.value.text else KeyIs(args, key)
    ensures SaysExtension(args + [a]) <==> if SetsExtension(a) then a.value.b else SaysExtension(args)
  {
    OneMore(args, a, SetsGraph);
    OneMore(args, a, SetsKey);
    OneMore(args, a, SetsExtension);
    var more := args + [a];
    assert more[|args|] == a && forall i :: 0 <= i < |args| ==> more[i] == args[i];
    hide LastWith, NoneWith, SetsGraph, SetsKey, SetsExtension, Subgraph;
    assert SetsGraph(a) ==> LastWith(more, |args|, SetsGraph);
    assert SetsKey(a) ==> LastWith(more, |args|, SetsKey);
    assert SetsExtension(a) ==> LastWith(more, |args|, SetsExtension);
    forall graph | !SetsGraph(a) ensures GraphIs(more, lookup, graph) <==> GraphIs(args, lookup, graph) {
      if i :| LastWith(args, i, SetsGraph) && graph == Subgraph(args[i].value.name, lookup) {
        assert LastWith(more, i, SetsGraph);
      }
    }
  }

  /** Of several arguments of one name the last counts; one of another kind does not count. */
  lemma {:induction false} LastArgumentCounts(args: seq<Argument>, lookup: map<string, string>)
    ensures var join := ReadJoinType(args, lookup);
      && (join.graph.None? <==> NoneWith(args, SetsGraph))
      && (forall graph :: join.graph == Some(graph) <==> GraphIs(args, lookup, graph))
      && (forall key :: join.key == Some(key) <==> KeyIs(args, key))
      && (join.extension <==> SaysExtension(args))
  {
    hide GraphIs, KeyIs, SaysExtension, LastWith, NoneWith;
    if args == [] {
      NoArguments(lookup);
    } else {
      var n := |args| - 1;
      LastArgumentCounts(args[..n], lookup);
      OneMoreArgument(args[..n], args[n], lookup);
      OneMore(args[..n], args[n], SetsGraph);
      assert args == args[..n] + [args[n]];
    }
  }

  lemma NoArguments(lookup: map<string, string>)
    ensures NoneWith([], SetsGraph) && (forall graph :: !GraphIs([], lookup, graph))
    ensures (forall key :: !KeyIs([], key)) && !SaysExtension([])
  {
  }

  // ---- what the directives of a type say --------------------------------------------------------------

  /** A `@join__type` without a graph is passed over. */
  predicate Joins(d: Directive) { d.name == "join__type" && !NoneWith(d.arguments, SetsGraph) }

  ghost predicate IsOwning(d: Directive) { Joins(d) && !SaysExtension(d.arguments) }

  ghost predicate IsExtending(d: Directive) { Joins(d) && SaysExtension(d.arguments) }

  ghost predicate HasKeyField(d: Directive) { Joins(d) && exists key :: KeyIs(d.arguments, key) && HasField(key) }

  predicate HasField(key: string) { exists i :: 0 <= i < |key| && !IsBlank(key[i]) }

  /** The graph of the last owning directive owns the type. */
  ghost predicate OwnerIs(ds: seq<Directive>, lookup: map<string, string>, owner: string) {
    exists i :: LastWith(ds, i, IsOwning) && GraphIs(ds[i].arguments, lookup, owner)
  }

  /** The graphs of the extending directives, in their order. */
  ghost predicate ExtendersAre(ds: seq<Directive>, lookup: map<string, string>, extenders: seq<string>) {
    exists at :: ExtendersAt(at, ds, lookup, extenders)
  }

  ghost predicate ExtendersAt(at: seq<nat>, ds: seq<Directive>, lookup: map<string, string>,
                              extenders: seq<string>) {
    && PositionsWith(at, ds, IsExtending) && |at| == |extenders|
    && forall k :: 0 <= k < |at| ==> GraphIs(ds[at[k]].arguments, lookup, extenders[k])
  }

  /** The fields of the first key that has any. */
  ghost predicate KeyFieldsAre(ds: seq<Directive>, keyFields: seq<string>) {
    if NoneWith(ds, HasKeyField) then keyFields == []
    else exists i, key :: FirstWith(ds, i, HasKeyField) && KeyIs(ds[i].arguments, key) && WordsAre(key, keyFields)
  }

  /** The text is these words, none empty and none with a blank in it, with blanks around and between them. */
  ghost predicate WordsAre(text: string, words: seq<string>) { exists gaps :: Spaced(text, words, gaps) }

  ghost predicate Spaced(text: string, words: seq<string>, gaps: seq<string>) {
    && |gaps| == |words| + 1 && text == Interleaved(gaps, words)
    && (forall k :: 0 <= k < |words| ==> words[k] != "" && IsSolid(words[k]))
    && (forall k :: 0 <= k < |gaps| ==> AllBlank(gaps[k]))
    && (forall k :: 0 < k < |words| ==> gaps[k] != "")
  }

  predicate IsSolid(word: string) { forall i :: 0 <= i < |word| ==> !IsBlank(word[i]) }

  predicate AllBlank(gap: string) { forall i :: 0 <= i < |gap| ==> IsBlank(gap[i]) }

  function Interleaved(gaps: seq<string>, words: seq<string>): string
    requires |gaps| == |words| + 1
  {
    if words == [] then gaps[0] else gaps[0] + words[0] + Interleaved(gaps[1..], words[1..])
  }

  lemma {:induction false} WordsAreSplit(s: string, word: string) returns (gaps: seq<string>)
    requires IsSolid(word)
    ensures Spaced(word + s, SplitWhitespace(s, word), gaps) && (word != "" ==> gaps[0] == "")
    decreases |s|
  {
    hide Spaced;
    if s == [] {
      gaps := if word == "" then [""] else ["", ""];
      LastWord(word);
      assert word + s == word;
    } else if IsBlank(s[0]) {
      var rest := WordsAreSplit(s[1..], "");
      var words := SplitWhitespace(s[1..], "");
      assert "" + s[1..] == s[1..] && s == [s[0]] + s[1..];
      gaps := WiderGap(s[1..], words, rest, s[0]);
      if word != "" {
        OneMoreWord(word, s, words, gaps);
        gaps := [""] + gaps;
      }
      assert "" + s == s && [] + words == words;
    } else {
      gaps := WordsAreSplit(s[1..], word + [s[0]]);
      assert word + s == word + [s[0]] + s[1..];
    }
  }

  lemma LastWord(word: string)
    requires IsSolid(word)
    ensures if word == "" then Spaced("", [], [""]) else Spaced(word, [word], ["", ""])
  {
    assert ["", ""][1..] == [""] && [word][1..] == [];
  }

  lemma WiderGap(text: string, words: seq<string>, gaps: seq<string>, blank: char) returns (wider: seq<string>)
    requires Spaced(text, words, gaps) && IsBlank(blank)
    ensures Spaced([blank] + text, words, wider) && wider[0] != ""
  {
    wider := [[blank] + gaps[0]] + gaps[1..];
    assert wider[1..] == gaps[1..];
    if words != [] {
      assert [blank] + (gaps[0] + words[0] + Interleaved(gaps[1..], words[1..]))
          == [blank] + gaps[0] + words[0] + Interleaved(gaps[1..], words[1..]);
    }
  }

  lemma OneMoreWord(word: string, text: string, words: seq<string>, gaps: seq<string>)
    requires Spaced(text, words, gaps) && gaps[0] != "" && IsSolid(word) && word != ""
    ensures Spaced(word + text, [word] + words, [""] + gaps)
  {
    assert ([""] + gaps)[1..] == gaps && ([word] + words)[1..] == words;
    assert "" + word + text == word + text;
    forall k | 0 < k < |[word] + words| ensures ([""] + gaps)[k] != "" {
      assert k > 1 ==> gaps[k - 1] != "";
    }
  }

  /** A key field set has a field unless it is blank. */
  lemma WordsOfKey(key: string)
    ensures WordsAre(key, SplitWhitespace(key, "")) && (SplitWhitespace(key, "") != [] <==> HasField(key))
  {
    var words := SplitWhitespace(key, "");
    var gaps := WordsAreSplit(key, "");
    assert "" + key == key;
    if words != [] {
      assert key[|gaps[0]|] == words[0][0];
    }
  }

  /** One more directive, read by its arguments. */
  lemma OneMoreDirective(ds: seq<Directive>, d: Directive, lookup: map<string, string>)
    ensures var (was, now) := (OwnershipOf(ds, lookup), OwnershipOf(ds + [d], lookup));
      && (if IsOwning(d) then now.owner.Some? && GraphIs(d.arguments, lookup, now.owner.value)
          else now.owner == was.owner)
      && (if IsExtending(d)
          then |now.extenders| == |was.extenders| + 1 && now.extenders[..|was.extenders|] == was.extenders
               && GraphIs(d.arguments, lookup, now.extenders[|was.extenders|])
          else now.extenders == was.extenders)
      && (if was.keyFields == [] && HasKeyField(d)
          then now.keyFields != [] && exists key :: KeyIs(d.arguments, key) && WordsAre(key, now.keyFields)
          else now.keyFields == was.keyFields)
  {
    assert (ds + [d])[..|ds|] == ds;
    LastArgumentCounts(d.arguments, lookup);
    hide ReadJoinType, SplitWhitespace, GraphIs, KeyIs, SaysExtension, WordsAre, HasField, NoneWith;
    var join := ReadJoinType(d.arguments, lookup);
    if join.key.Some? {
      WordsOfKey(join.key.value);
    }
  }

  lemma OneMoreOwner(ds: seq<Directive>, d: Directive, lookup: map<string, string>, owner: string)
    requires if IsOwning(d) then GraphIs(d.arguments, lookup, owner) else OwnerIs(ds, lookup, owner)
    ensures OwnerIs(ds + [d], lookup, owner)
  {
    hide IsOwning, GraphIs;
    OneMore(ds, d, IsOwning);
    var more := ds + [d];
    if IsOwning(d) {
      assert LastWith(more, |ds|, IsOwning) && more[|ds|] == d;
    } else {
      var i :| LastWith(ds, i, IsOwning) && GraphIs(ds[i].arguments, lookup, owner);
      assert LastWith(more, i, IsOwning) && more[i] == ds[i];
    }
  }

  /** The owner that the catalogue reads is the declared one. */
  lemma {:induction false} OwnerIsTheLast(ds: seq<Directive>, lookup: map<string, string>)
    ensures var owner := OwnershipOf(ds, lookup).owner;
      && (owner.None? <==> NoneWith(ds, IsOwning))
      && (owner.Some? ==> OwnerIs(ds, lookup, owner.value))
  {
    hide OwnershipOf, OwnerIs, IsOwning, IsExtending, HasKeyField, NoneWith, GraphIs, KeyIs, WordsAre;
    if ds == [] {
      NothingDeclared(lookup);
    } else {
      var n := |ds| - 1;
      var init, d := ds[..n], ds[n];
      OwnerIsTheLast(init, lookup);
      OneMoreDirective(init, d, lookup);
      OneMore(init, d, IsOwning);
      hide LastWith, FirstWith;
      assert ds == init + [d];
      var owner := OwnershipOf(ds, lookup).owner;
      if owner.Some? {
        OneMoreOwner(init, d, lookup, owner.value);
      }
    }
  }

  lemma NothingDeclared(lookup: map<string, string>)
    ensures OwnershipOf([], lookup) == Ownership(None, [], [])
    ensures NoneWith([], IsOwning) && NoneWith([], HasKeyField) && ExtendersAt([], [], lookup, [])
  {
  }

  lemma OneOwner(ds: seq<Directive>, lookup: map<string, string>, a: string, b: string)
    requires OwnerIs(ds, lookup, a) && OwnerIs(ds, lookup, b)
    ensures a == b
  {
    hide IsOwning, Subgraph, SetsGraph;
  }

  lemma OneMoreExtender(ds: seq<Directive>, d: Directive, lookup: map<string, string>, at: seq<nat>,
                        extenders: seq<string>, more: seq<string>)
    requires ExtendersAt(at, ds, lookup, extenders)
    requires if IsExtending(d)
             then |more| == |extenders| + 1 && more[..|extenders|] == extenders
                  && GraphIs(d.arguments, lookup, more[|extenders|])
             else more == extenders
    ensures ExtendersAt(if IsExtending(d) then at + [|ds|] else at, ds + [d], lookup, more)
  {
    hide IsExtending, GraphIs;
    OneMorePosition(at, ds, d, IsExtending);
    hide PositionsWith;
    var now := if IsExtending(d) then at + [|ds|] else at;
    forall k | 0 <= k < |now| ensures GraphIs((ds + [d])[now[k]].arguments, lookup, more[k]) {
      if k < |at| {
        assert more[k] == more[..|extenders|][k] == extenders[k];
        assert (ds + [d])[at[k]] == ds[at[k]] by {
          PositionsExist(at, ds, IsExtending);
        }
      }
    }
  }

  /** The extenders that the catalogue reads are the declared ones, in order. */
  lemma {:induction false} ExtendersAreInOrder(ds: seq<Directive>, lookup: map<string, string>)
    returns (at: seq<nat>)
    ensures ExtendersAt(at, ds, lookup, OwnershipOf(ds, lookup).extenders)
  {
    hide OwnershipOf, OwnerIs, IsOwning, IsExtending, HasKeyField, GraphIs, KeyIs, WordsAre, ExtendersAt;
    if ds == [] {
      NothingDeclared(lookup);
      at := [];
    } else {
      var n := |ds| - 1;
      var init, d := ds[..n], ds[n];
      var before := ExtendersAreInOrder(init, lookup);
      OneMoreDirective(init, d, lookup);
      assert ds == init + [d];
      at := if IsExtending(d) then before + [n] else before;
      OneMoreExtender(init, d, lookup, before, OwnershipOf(init, lookup).extenders, OwnershipOf(ds, lookup).extenders);
    }
  }

  lemma OneMoreKey(ds: seq<Directive>, d: Directive, was: seq<string>, now: seq<string>)
    requires KeyFieldsAre(ds, was) && (was == [] <==> NoneWith(ds, HasKeyField))
    requires if was == [] && HasKeyField(d)
             then now != [] && exists key :: KeyIs(d.arguments, key) && WordsAre(key, now)
             else now == was
    ensures KeyFieldsAre(ds + [d], now) && (now == [] <==> NoneWith(ds + [d], HasKeyField))
  {
    hide HasKeyField, KeyIs, WordsAre;
    OneMore(ds, d, HasKeyField);
    var more := ds + [d];
    assert more[|ds|] == d;
    if was != [] {
      var i, key :| FirstWith(ds, i, HasKeyField) && KeyIs(ds[i].arguments, key) && WordsAre(key, was);
      assert FirstWith(more, i, HasKeyField) && more[i] == ds[i];
      assert KeyIs(more[i].arguments, key) && WordsAre(key, now);
    } else if HasKeyField(d) {
      var key :| KeyIs(d.arguments, key) && WordsAre(key, now);
      assert FirstWith(more, |ds|, HasKeyField) && KeyIs(more[|ds|].arguments, key);
    }
  }

  /** The key fields that the catalogue reads are those of the first key with a field. */
  lemma {:induction false} KeyFieldsAreTheFirst(ds: seq<Directive>, lookup: map<string, string>)
    ensures var keyFields := OwnershipOf(ds, lookup).keyFields;
      KeyFieldsAre(ds, keyFields) && (keyFields == [] <==> NoneWith(ds, HasKeyField))
  {
    hide OwnershipOf, OwnerIs, IsOwning, IsExtending, HasKeyField, GraphIs, KeyIs, WordsAre;
    if ds == [] {
      NothingDeclared(lookup);
    } else {
      hide KeyFieldsAre, NoneWith, FirstWith;
      var n := |ds| - 1;
      var init, d := ds[..n], ds[n];
      KeyFieldsAreTheFirst(init, lookup);
      OneMoreDirective(init, d, lookup);
      assert ds == init + [d];
      OneMoreKey(init, d, OwnershipOf(init, lookup).keyFields, OwnershipOf(ds, lookup).keyFields);
    }
  }

  /** What the catalogue reads off the directives of a type is what they declare. */
  lemma DirectivesDecide(ds: seq<Directive>, lookup: map<string, string>)
    ensures var own := OwnershipOf(ds, lookup);
      && (own.owner.None? <==> NoneWith(ds, IsOwning))
      && (forall owner :: own.owner == Some(owner) <==> OwnerIs(ds, lookup, owner))
      && ExtendersAre(ds, lookup, own.extenders) && (own.extenders == [] <==> NoneWith(ds, IsExtending))
      && KeyFieldsAre(ds, own.keyFields)
  {
    hide OwnershipOf, OwnerIs, IsOwning, IsExtending, KeyFieldsAre, GraphIs;
    var own := OwnershipOf(ds, lookup);
    OwnerIsTheLast(ds, lookup);
    KeyFieldsAreTheFirst(ds, lookup);
    var at := ExtendersAreInOrder(ds, lookup);
    forall owner | OwnerIs(ds, lookup, owner) ensures own.owner == Some(owner) {
      OwnedIsNotNone(ds, lookup, owner);
      OneOwner(ds, lookup, owner, own.owner.value);
    }
    hide LastWith, FirstWith, NoneWith;
    NoExtenders(at, ds, lookup, own.extenders);
  }

  lemma OwnedIsNotNone(ds: seq<Directive>, lookup: map<string, string>, owner: string)
    requires OwnerIs(ds, lookup, owner)
    ensures !NoneWith(ds, IsOwning)
  {
    hide IsOwning, GraphIs;
  }

  lemma NoExtenders(at: seq<nat>, ds: seq<Directive>, lookup: map<string, string>, extenders: seq<string>)
    requires ExtendersAt(at, ds, lookup, extenders)
    ensures extenders == [] <==> NoneWith(ds, IsExtending)
  {
    hide IsExtending, GraphIs;
    if extenders != [] {
      assert at[0] in at;
    }
  }

  function Extension(graph: string): Directive {
    Directive("join__type",
      [Argument("graph", EnumLit(graph)), Argument("key", StringLit("id")), Argument("extension", BoolLit(true))])
  }

  const PROPERTY := Directive("join__type", [Argument("graph", EnumLit("PROPERTY")), Argument("key", StringLit("id"))])

  const LOOKUP := map["PROPERTY" := "property", "PRICING" := "pricing", "REVIEW" := "review"]

  lemma ExtensionIsRead(graph: string)
    ensures ReadJoinType(Extension(graph).arguments, LOOKUP)
         == JoinType(Some(Subgraph(graph, LOOKUP)), Some("id"), true)
  {
    var b := Extension(graph).arguments;
    assert ReadJoinType([], LOOKUP) == JoinType(None, None, false);
    assert b[..2] == [b[0], b[1]] && [b[0], b[1]][..1] == [b[0]] && [b[0]][..0] == [];
    assert ReadJoinType([b[0]], LOOKUP) == JoinType(Some(Subgraph(graph, LOOKUP)), None, false);
    assert ReadJoinType([b[0], b[1]], LOOKUP) == JoinType(Some(Subgraph(graph, LOOKUP)), Some("id"), false);
  }

  lemma PropertyIsRead()
    ensures ReadJoinType(PROPERTY.arguments, LOOKUP) == JoinType(Some("property"), Some("id"), false)
    ensures SplitWhitespace("id", "") == ["id"]
  {
    var a := PROPERTY.arguments;
    assert ReadJoinType([], LOOKUP) == JoinType(None, None, false);
    assert a[..1] == [a[0]] && [a[0]][..0] == [];
    assert ReadJoinType([a[0]], LOOKUP) == JoinType(Some("property"), None, false);
    assert "id"[1..] == "d" && "d"[1..] == "" && "" + ['i'] == "i" && "i" + ['d'] == "id";
  }

  /** The repository's own property type: owned by one subgraph, extended by two others under the same key. */
  lemma PropertyIsExtended()
    ensures var pricing, review := Extension("PRICING"), Extension("REVIEW");
      && OwnershipOf([PROPERTY, pricing, review], LOOKUP) == Ownership(Some("property"), ["pricing", "review"], ["id"])
      && OwnershipOf([pricing], LOOKUP) == Ownership(None, ["pricing"], ["id"])
  {
    var pricing, review := Extension("PRICING"), Extension("REVIEW");
    PropertyIsRead();
    ExtensionIsRead("PRICING");
    ExtensionIsRead("REVIEW");
    assert pricing.name == review.name == PROPERTY.name == "join__type";
    hide ReadJoinType, SplitWhitespace, Extension;
    assert [PROPERTY, pricing, review][..2] == [PROPERTY, pricing];
    assert [PROPERTY, pricing][..1] == [PROPERTY] && [PROPERTY][..0] == [] && [pricing][..0] == [];
    assert OwnershipOf([], LOOKUP) == Ownership(None, [], []);
    assert OwnershipOf([PROPERTY], LOOKUP) == Ownership(Some("property"), [], ["id"]);
    assert OwnershipOf([PROPERTY, pricing], LOOKUP) == Ownership(Some("property"), ["pricing"], ["id"]);
  }

  // ---- who owns a field -----------------------------------------------------------------------------------

  predicate IsGraph(a: Argument) { a.name == "graph" }

  /** A `@join__field` names the subgraph of its first graph, be it an enum value or a text. */
  ghost predicate FieldGraphIs(d: Directive, lookup: map<string, string>, graph: string) {
    d.name == "join__field"
    && exists i :: FirstWith(d.arguments, i, IsGraph) && StandsFor(d.arguments[i].value, lookup, graph)
  }

  predicate StandsFor(v: Value, lookup: map<string, string>, graph: string) {
    (v.EnumLit? && graph == Subgraph(v.name, lookup)) || (v.StringLit? && graph == v.text)
  }

  ghost predicate NamesGraph(d: Directive, lookup: map<string, string>) { exists g :: FieldGraphIs(d, lookup, g) }

  lemma {:induction false} FirstGraphIsFound(args: seq<Argument>)
    ensures match FindArgument(args, "graph")
      case None => NoneWith(args, IsGraph)
      case Some(v) => exists i :: FirstWith(args, i, IsGraph) && args[i].value == v
  {
    if args != [] {
      FirstGraphIsFound(args[1..]);
      assert forall i :: 0 < i < |args| ==> args[i] == args[1..][i - 1];
      if args[0].name == "graph" {
        assert FirstWith(args, 0, IsGraph);
      } else if FindArgument(args, "graph").Some? {
        var v := FindArgument(args, "graph").value;
        var i :| FirstWith(args[1..], i, IsGraph) && args[1..][i].value == v;
        assert FirstWith(args, i + 1, IsGraph);
      }
    }
  }

  lemma FieldGraphIsRead(d: Directive, lookup: map<string, string>)
    ensures forall g :: d.name == "join__field" && GraphArgument(d, lookup) == Some(g) <==> FieldGraphIs(d, lookup, g)
  {
    FirstGraphIsFound(d.arguments);
    hide FindArgument;
  }

  /** The first of these that names a subgraph. */
  ghost predicate FirstNaming(ds: seq<Directive>, lookup: map<string, string>, i: int) {
    0 <= i < |ds| && NamesGraph(ds[i], lookup) && forall j :: 0 <= j < i ==> !NamesGraph(ds[j], lookup)
  }

  lemma {:induction false} FirstGraphIsNamed(ds: seq<Directive>, lookup: map<string, string>)
    ensures match FirstGraph(ds, lookup)
      case None => forall i :: 0 <= i < |ds| ==> !NamesGraph(ds[i], lookup)
      case Some(sg) => exists i :: FirstNaming(ds, lookup, i) && FieldGraphIs(ds[i], lookup, sg)
  {
    hide FieldGraphIs, GraphArgument;
    if ds != [] {
      FirstGraphIsNamed(ds[1..], lookup);
      FieldGraphIsRead(ds[0], lookup);
      assert forall i :: 0 < i < |ds| ==> ds[i] == ds[1..][i - 1];
      if NamesGraph(ds[0], lookup) {
        assert FirstNaming(ds, lookup, 0);
      } else if FirstGraph(ds, lookup).Some? {
        var sg := FirstGraph(ds, lookup).value;
        var i :| FirstNaming(ds[1..], lookup, i) && FieldGraphIs(ds[1..][i], lookup, sg);
        assert FirstNaming(ds, lookup, i + 1);
      }
    }
  }

  /** The first `@join__field` that names a subgraph decides; without one the type's owner owns the field. */
  lemma FirstFieldGraphDecides(ds: seq<Directive>, lookup: map<string, string>, owner: string)
    ensures var sg := ResolvedOwner(ds, lookup, owner);
      && ((forall i :: 0 <= i < |ds| ==> !NamesGraph(ds[i], lookup)) ==> sg == owner)
      && (forall i :: FirstNaming(ds, lookup, i) ==> FieldGraphIs(ds[i], lookup, sg))
  {
    FirstGraphIsNamed(ds, lookup);
    hide FieldGraphIs, FirstGraph;
  }
}
