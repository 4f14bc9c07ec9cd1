/** The registry's breaking-change check (SchemaCheckService.kt). Maps are walked in no particular order. */
module SchemaCheck {
  import opened Common
  import opened Sdl

  datatype UsageBucket = UsageBucket(clientName: string, clientVersion: string, count: nat)

  /** Who has used a field of this service in the last thirty days. */
  type Usage = (string, string) -> seq<UsageBucket>

  datatype Issue = Issue(
    severity: string,
    code: string,
    message: string,
    typeName: string,
    fieldName: Option<string>,
    usageByClient: seq<UsageBucket>)

  function TypeRemoved(t: string): Issue {
    Issue("warning", "BREAKING_TYPE_REMOVED", "Type " + t + " was removed.", t, None, [])
  }

  function FieldRemoved(t: string, f: string, usage: Usage): Issue {
    var message := "Field " + t + "." + f + " was removed.";
    if usage(t, f) == [] then Issue("warning", "BREAKING_FIELD_REMOVED", message, t, Some(f), [])
    else Issue("error", "BREAKING_FIELD_REMOVED", message + " Recent usage exists in the last 30 days.", t, Some(f),
               usage(t, f))
  }

  function TypeChanged(t: string, before: FieldDef, after: FieldDef): Issue {
    Issue("warning", "BREAKING_FIELD_TYPE_CHANGED",
          "Field " + t + "." + before.name + " changed type from " + before.typeRef + " to " + after.typeRef + ".", t,
              Some(before.name), [])
  }

  function BecameRequired(t: string, f: string): Issue {
    Issue("warning", "BREAKING_OPTIONAL_TO_REQUIRED", "Field " + t + "." + f + " changed from optional to required.",
          t, Some(f), [])
  }

  function ValueRemoved(e: string, v: string): Issue {
    Issue("warning", "BREAKING_ENUM_VALUE_REMOVED", "Enum value " + e + "." + v + " was removed.", e, Some(v), [])
  }

  function MutationRemoved(f: string): Issue {
    Issue("warning", "BREAKING_MUTATION_REMOVED", "Mutation " + f + " was removed.", "Mutation", Some(f), [])
  }

  // ---- what is to be reported ------------------------------------------------------------

  function FieldsOf(doc: SdlDocument, t: string): map<string, FieldDef> {
    if t in doc.types then doc.types[t].fields else map[]
  }

  function ValuesOf(doc: SdlDocument, e: string): set<string> { if e in doc.enums then doc.enums[e] else {} }

  /** In the parsed maps a field stands under its own name, and its type ends in `!` only if it is required. */
  ghost predicate SoundFields(fields: map<string, FieldDef>) {
    forall f :: f in fields ==> fields[f].name == f && (fields[f].required || !Required(fields[f].typeRef))
  }

  ghost predicate SoundDocument(doc: SdlDocument) { forall t :: t in doc.types ==> SoundFields(doc.types[t].fields) }

  /** An issue about one field of a type that is still there. */
  ghost predicate FieldIssue(t: string, before: map<string, FieldDef>, after: map<string, FieldDef>, usage: Usage,
                             f: string, i: Issue) {
    f in before &&
    if f !in after then i == FieldRemoved(t, f, usage)
    else
      || (before[f].typeRef != after[f].typeRef && i == TypeChanged(t, before[f], after[f]))
      || (!before[f].required && after[f].required && i == BecameRequired(t, f))
  }

  ghost predicate TypeIssue(t: string, was: SdlDocument, now: SdlDocument, usage: Usage, i: Issue) {
    t in was.types &&
    if t !in now.types then i == TypeRemoved(t)
    else exists f :: FieldIssue(t, was.types[t].fields, now.types[t].fields, usage, f, i)
  }

  ghost predicate EnumIssue(e: string, was: SdlDocument, now: SdlDocument, i: Issue) {
    e in was.enums && exists v :: v in was.enums[e] - ValuesOf(now, e) && i == ValueRemoved(e, v)
  }

  ghost predicate MutationIssue(was: SdlDocument, now: SdlDocument, i: Issue) {
    exists f :: f in FieldsOf(was, "Mutation").Keys - FieldsOf(now, "Mutation").Keys && i == MutationRemoved(f)
  }

  ghost predicate ToReport(was: SdlDocument, now: SdlDocument, usage: Usage, i: Issue) {
    || (exists t :: TypeIssue(t, was, now, usage, i))
    || (exists e :: EnumIssue(e, was, now, i))
    || MutationIssue(was, now, i)
  }

  /** The same types with the same fields, and the same enums; kinds, keys, descriptions and unions may differ. */
  ghost predicate SameFieldsAndValues(a: SdlDocument, b: SdlDocument) {
    a.types.Keys == b.types.Keys && (forall t :: t in a.types ==> a.types[t].fields == b.types[t].fields)
      && a.enums == b.enums
  }

  /** Nothing else of the documents is looked at: no change of a union or of a type's kind is reported. */
  lemma OnlyFieldsAndValuesMatter(was: SdlDocument, was': SdlDocument, now: SdlDocument, now': SdlDocument,
                                  usage: Usage)
    requires SameFieldsAndValues(was, was') && SameFieldsAndValues(now, now')
    ensures forall i :: ToReport(was, now, usage, i) <==> ToReport(was', now', usage, i)
  {
    hide FieldIssue;
    forall i ensures ToReport(was, now, usage, i) <==> ToReport(was', now', usage, i) {
      assert forall t :: TypeIssue(t, was, now, usage, i) <==> TypeIssue(t, was', now', usage, i);
      assert forall e :: EnumIssue(e, was, now, i) <==> EnumIssue(e, was', now', i);
      assert FieldsOf(was, "Mutation") == FieldsOf(was', "Mutation")
             && FieldsOf(now, "Mutation") == FieldsOf(now', "Mutation");
    }
  }

  // ---- the loops ---------------------------------------------------------------------------

  method FieldIssues(t: string, before: map<string, FieldDef>, after: map<string, FieldDef>,
                     usage: Usage) returns (issues: seq<Issue>)
    requires SoundFields(before)
    ensures forall i :: i in issues <==> exists f :: FieldIssue(t, before, after, usage, f, i)
  {
    issues := [];
    var todo := before.Keys;
    while todo != {}
      invariant todo <= before.Keys
      invariant forall i :: i in issues <==> exists f :: f !in todo && FieldIssue(t, before, after, usage, f, i)
      decreases |todo|
    {
      var f :| f in todo;
      ghost var done := issues;
      if f !in after {
        issues := issues + [FieldRemoved(t, f, usage)];
      } else {
        if before[f].typeRef != after[f].typeRef {
          issues := issues + [TypeChanged(t, before[f], after[f])];
        }
        if !before[f].required && after[f].required {
          issues := issues + [BecameRequired(t, f)];
        }
      }
      assert forall i :: i in issues <==> i in done || FieldIssue(t, before, after, usage, f, i);
      todo := todo - {f};
    }
  }

  method TypeIssues(was: SdlDocument, now: SdlDocument, usage: Usage) returns (issues: seq<Issue>)
    requires SoundDocument(was)
    ensures forall i :: i in issues <==> exists t :: TypeIssue(t, was, now, usage, i)
  {
    issues := [];
    var todo := was.types.Keys;
    while todo != {}
      invariant todo <= was.types.Keys
      invariant forall i :: i in issues <==> exists t :: t !in todo && TypeIssue(t, was, now, usage, i)
      decreases |todo|
    {
      var t :| t in todo;
      var more := [TypeRemoved(t)];
      if t in now.types {
        more := FieldIssues(t, was.types[t].fields, now.types[t].fields, usage);
      }
      assert forall i :: i in more <==> TypeIssue(t, was, now, usage, i);
      hide TypeIssue;
      issues := issues + more;
      todo := todo - {t};
    }
  }

  method EnumIssues(was: SdlDocument, now: SdlDocument) returns (issues: seq<Issue>)
    ensures forall i :: i in issues <==> exists e :: EnumIssue(e, was, now, i)
  {
    issues := [];
    var todo := was.enums.Keys;
    while todo != {}
      invariant todo <= was.enums.Keys
      invariant forall i :: i in issues <==> exists e :: e !in todo && EnumIssue(e, was, now, i)
      decreases |todo|
    {
      var e :| e in todo;
      var more := RemovedValues(e, was.enums[e] - ValuesOf(now, e));
      assert forall i :: i in more <==> EnumIssue(e, was, now, i);
      hide EnumIssue;
      issues := issues + more;
      todo := todo - {e};
    }
  }

  method RemovedValues(e: string, removed: set<string>) returns (issues: seq<Issue>)
    ensures forall i :: i in issues <==> exists v :: v in removed && i == ValueRemoved(e, v)
  {
    hide ValueRemoved;
    issues := [];
    var left := removed;
    while left != {}
      invariant left <= removed
      invariant forall i :: i in issues <==> exists v :: v in removed && v !in left && i == ValueRemoved(e, v)
      decreases |left|
    {
      var v :| v in left;
      issues := issues + [ValueRemoved(e, v)];
      left := left - {v};
    }
  }

  method MutationIssues(was: SdlDocument, now: SdlDocument) returns (issues: seq<Issue>)
    ensures forall i :: i in issues <==> MutationIssue(was, now, i)
  {
    hide MutationRemoved;
    issues := [];
    var removed := FieldsOf(was, "Mutation").Keys - FieldsOf(now, "Mutation").Keys;
    var left := removed;
    while left != {}
      invariant left <= removed
      invariant forall i :: i in issues <==> exists f :: f in removed && f !in left && i == MutationRemoved(f)
      decreases |left|
    {
      var f :| f in left;
      issues := issues + [MutationRemoved(f)];
      left := left - {f};
    }
  }

  predicate IsBlankText(s: string) { All(s, IsSpace) }

  method BreakingChanges(oldSdl: Option<string>, newSdl: string, usage: Usage) returns (issues: seq<Issue>)
    ensures oldSdl.None? || IsBlankText(oldSdl.value) ==> issues == []
    ensures oldSdl.Some? && !IsBlankText(oldSdl.value) ==>
              forall i :: i in issues <==> ToReport(Document(oldSdl.value), Document(newSdl), usage, i)
    ensures issues == [] <==> Silent(oldSdl, newSdl)
  {
    hide ToReport, Compatible;
    if oldSdl.None? || IsBlankText(oldSdl.value) {
      return [];
    }
    var was := Parse(oldSdl.value);
    var now := Parse(newSdl);
    ParsedIsSound(Lines(oldSdl.value), false, NOTHING);
    var types := TypeIssues(was, now, usage);
    var enums := EnumIssues(was, now);
    var mutations := MutationIssues(was, now);
    issues := types + enums + mutations;
    forall i ensures i in issues <==> ToReport(was, now, usage, i) {
      ReportedSomewhere(was, now, usage, i);
    }
    NothingToReportExactly(was, now, usage);
    assert issues != [] ==> issues[0] in issues;
  }

  lemma ReportedSomewhere(was: SdlDocument, now: SdlDocument, usage: Usage, i: Issue)
    ensures ToReport(was, now, usage, i) <==>
            (exists t :: TypeIssue(t, was, now, usage, i)) || (exists e :: EnumIssue(e, was, now, i))
              || MutationIssue(was, now, i)
  {
  }

  function Document(sdl: string): SdlDocument { ParseLines(Lines(sdl), false, NOTHING) }

  lemma {:induction false} BodyIsSound(lines: seq<string>, pending: bool, fields: map<string, FieldDef>)
    requires SoundFields(fields)
    ensures SoundFields(TypeBody(lines, pending, fields).0)
    decreases |lines|
  {
    hide MatchField, Quoted, Closes, Trim;
    if lines != [] && !Closes(lines[0]) {
      if Quoted(Trim(lines[0])) {
        BodyIsSound(lines[1..], true, fields);
      } else {
        match MatchField(Trim(lines[0])) {
          case None => BodyIsSound(lines[1..], pending, fields);
          case Some(f) =>
            BodyIsSound(lines[1..], false, fields[f.name :=
              FieldDef(f.name, Bare(f.typeRef), Required(f.typeRef), pending)]);
        }
      }
    }
  }

  lemma {:induction false} ParsedIsSound(lines: seq<string>, pending: bool, doc: SdlDocument)
    requires SoundDocument(doc)
    ensures SoundDocument(ParseLines(lines, pending, doc))
    decreases |lines|
  {
    hide MatchUnion, MatchHead, MatchType, Quoted, Trim, Members, Contains, TypeBody, EnumBody;
    if lines != [] {
      var line := Trim(lines[0]);
      if Quoted(line) {
        ParsedIsSound(lines[1..], true, doc);
      } else if MatchUnion(line).Some? {
        var u := MatchUnion(line).value;
        ParsedIsSound(lines[1..], false, doc.(unions := doc.unions[u.name := Members(u.members)]));
      } else if MatchHead(line, "enum").Some? {
        var (values, rest) := EnumBody(lines[1..], {});
        ParsedIsSound(Rest(rest), false, doc.(enums := doc.enums[MatchHead(line, "enum").value.name := values]));
      } else if MatchType(line).Some? {
        var t := MatchType(line).value;
        BodyIsSound(lines[1..], false, map[]);
        var (fields, rest) := TypeBody(lines[1..], false, map[]);
        assert fields == TypeBody(lines[1..], false, map[]).0;
        var def := TypeDef(t.name, t.kind, Contains(t.suffix, "@key"), pending, fields);
        ParsedIsSound(Rest(rest), false, doc.(types := doc.types[t.name := def]));
      } else {
        ParsedIsSound(lines[1..], false, doc);
      }
    }
  }

  // ---- compatibility -------------------------------------------------------------------------

  /** Every old type, field, field type, optionality and enum value is kept. */
  ghost predicate Compatible(was: SdlDocument, now: SdlDocument) {
    && (forall t :: t in was.types ==> t in now.types && FieldsKept(was.types[t].fields, now.types[t].fields))
    && forall e, v :: e in was.enums && v in was.enums[e] ==> v in ValuesOf(now, e)
  }

  ghost predicate FieldsKept(before: map<string, FieldDef>, after: map<string, FieldDef>) {
    forall f :: f in before ==>
      f in after && after[f].typeRef == before[f].typeRef && (after[f].required ==> before[f].required)
  }

  /** The registry has nothing to report exactly when the new document is compatible with the old one. */
  lemma NothingToReportExactly(was: SdlDocument, now: SdlDocument, usage: Usage)
    ensures (forall i :: !ToReport(was, now, usage, i)) <==> Compatible(was, now)
  {
    if forall i :: !ToReport(was, now, usage, i) {
      forall t | t in was.types ensures t in now.types && FieldsKept(was.types[t].fields, now.types[t].fields) {
        assert t !in now.types ==>
                 TypeIssue(t, was, now, usage, TypeRemoved(t)) && ToReport(was, now, usage, TypeRemoved(t));
        KeptUnlessReported(t, was, now, usage);
      }
      forall e, v | e in was.enums && v in was.enums[e] ensures v in ValuesOf(now, e) {
        assert v !in ValuesOf(now, e) ==>
                 EnumIssue(e, was, now, ValueRemoved(e, v)) && ToReport(was, now, usage, ValueRemoved(e, v));
      }
    }
    if Compatible(was, now) {
      forall i ensures !ToReport(was, now, usage, i) {
        forall t ensures !TypeIssue(t, was, now, usage, i) {
          NoTypeIssue(t, was, now, usage, i);
        }
      }
    }
  }

  lemma NoTypeIssue(t: string, was: SdlDocument, now: SdlDocument, usage: Usage, i: Issue)
    requires Compatible(was, now)
    ensures !TypeIssue(t, was, now, usage, i)
  {
    if t in was.types {
      assert FieldsKept(was.types[t].fields, now.types[t].fields);
    }
  }

  lemma KeptUnlessReported(t: string, was: SdlDocument, now: SdlDocument, usage: Usage)
    requires t in was.types && t in now.types && forall i :: !ToReport(was, now, usage, i)
    ensures FieldsKept(was.types[t].fields, now.types[t].fields)
  {
    var before, after := was.types[t].fields, now.types[t].fields;
    forall f | f in before
      ensures f in after && after[f].typeRef == before[f].typeRef && (after[f].required ==> before[f].required)
    {
      var i := if f !in after then FieldRemoved(t, f, usage)
               else if before[f].typeRef != after[f].typeRef then TypeChanged(t, before[f], after[f])
               else BecameRequired(t, f);
      assert FieldIssue(t, before, after, usage, f, i) ==>
               TypeIssue(t, was, now, usage, i) && ToReport(was, now, usage, i);
    }
  }

  // ---- versions --------------------------------------------------------------------------------

  /** The check of the second text against the first reports nothing. */
  ghost predicate Silent(oldSdl: Option<string>, newSdl: string) {
    oldSdl.None? || IsBlankText(oldSdl.value) || Compatible(Document(oldSdl.value), Document(newSdl))
  }

  lemma {:induction false} BlankLinesSayNothing(lines: seq<string>, doc: SdlDocument)
    requires forall i :: 0 <= i < |lines| ==> IsBlankText(lines[i])
    ensures ParseLines(lines, false, doc) == doc
  {
    if lines != [] {
      TrimBlank(lines[0]);
      NothingMatches();
      BlankLinesSayNothing(lines[1..], doc);
    }
  }

  lemma {:induction false} TrimBlank(s: string)
    requires IsBlankText(s)
    ensures Trim(s) == ""
  {
    SkipsAll(s, 0);
  }

  lemma {:induction false} SkipsAll(s: string, i: nat)
    requires i <= |s| && IsBlankText(s)
    ensures SkipWhile(s, i, IsSpace) == |s|
    decreases |s| - i
  {
    if i < |s| {
      SkipsAll(s, i + 1);
    }
  }

  lemma NothingMatches()
    ensures !Quoted("") && MatchUnion("") == None && MatchHead("", "enum") == None && MatchType("") == None
  {
  }

  lemma {:induction false} BlankTextHasBlankLines(text: string)
    requires IsBlankText(text)
    ensures forall i :: 0 <= i < |Lines(text)| ==> IsBlankText(Lines(text)[i])
    decreases |text|
  {
    hide IsSpace;
    var j := SkipWhile(text, 0, c => c != '\n' && c != '\r');
    if j < |text| {
      var k := if text[j] == '\r' && j + 1 < |text| && text[j + 1] == '\n' then j + 2 else j + 1;
      BlankTextHasBlankLines(text[k..]);
    }
  }

  lemma CompatibleIsTransitive(a: SdlDocument, b: SdlDocument, c: SdlDocument)
    requires Compatible(a, b) && Compatible(b, c)
    ensures Compatible(a, c)
  {
    forall t | t in a.types ensures t in c.types && FieldsKept(a.types[t].fields, c.types[t].fields) {
      assert t in b.types && t in c.types;
    }
    forall e, v | e in a.enums && v in a.enums[e] ensures v in ValuesOf(c, e) {
      assert v in ValuesOf(b, e);
    }
  }

  /** Staying silent is reflexive and transitive over schema texts, missing and blank ones included. */
  lemma SilenceIsAPreorder(a: Option<string>, b: string, c: string)
    ensures Silent(Some(b), b)
    ensures Silent(a, b) && Silent(Some(b), c) ==> Silent(a, c)
  {
    if Silent(a, b) && Silent(Some(b), c) && a.Some? && !IsBlankText(a.value) {
      if IsBlankText(b) {
        BlankTextHasBlankLines(b);
        BlankLinesSayNothing(Lines(b), NOTHING);
        assert Document(b) == NOTHING;
      } else {
        CompatibleIsTransitive(Document(a.value), Document(b), Document(c));
      }
    }
  }
}
