/** The breaking-change check of the build (scripts/ci/schema_check.py), on the registry's document model. */
module CiSchemaCheck {
  import opened Common
  import opened Sdl
  import opened SchemaCheck

  datatype CiIssue = CiIssue(severity: string, code: string, message: string, typeName: Option<string>,
                             fieldName: Option<string>)

  // ---- the shared document -----------------------------------------------------------------

  /** A type as it is written, `!` included. */
  function Written(f: FieldDef): string { f.typeRef + if f.required then "!" else "" }

  /** Blanks are taken out before types are compared. */
  function Normal(s: string): string {
    if s == "" then "" else (if IsSpace(s[0]) then "" else [s[0]]) + Normal(s[1..])
  }

  /** What the build's parser makes of the fields of a type. */
  function CiFields(fields: map<string, FieldDef>): map<string, string> {
    map f | f in fields :: Normal(Written(fields[f]))
  }

  // ---- what is reported ----------------------------------------------------------------------

  function Issue(code: string, message: string, t: string, f: Option<string>): CiIssue {
    CiIssue("BREAKING", code, message, Some(t), f)
  }

  function CiFieldIssue(t: string, f: string, was: map<string, string>, now: map<string, string>): Option<CiIssue>
    requires f in was
  {
    if f !in now then
      Some(Issue(if t == "Mutation" then "MUTATION_REMOVED" else "FIELD_REMOVED",
                 t + "." + f + " was removed.", t, Some(f)))
    else if now[f] != was[f] then
      Some(Issue(if !Required(was[f]) && Required(now[f]) then "FIELD_BECAME_REQUIRED" else "FIELD_TYPE_CHANGED",
                 t + "." + f + " changed from " + was[f] + " to " + now[f] + ".", t, Some(f)))
    else None
  }

  ghost predicate CiReports(was: SdlDocument, now: SdlDocument, i: CiIssue) {
    || (exists t :: t in was.types && t !in now.types
          && i == Issue("TYPE_REMOVED", "Type " + t + " was removed.", t, None))
    || (exists t, f :: t in was.types && t in now.types && f in was.types[t].fields
          && CiFieldIssue(t, f, CiFields(was.types[t].fields), CiFields(now.types[t].fields)) == Some(i))
    || (exists e, v :: e in was.enums && v in was.enums[e] && v !in ValuesOf(now, e)
          && i == Issue("ENUM_VALUE_REMOVED", e + "." + v + " was removed.", e, Some(v)))
  }

  method CiTypeIssues(t: string, was: map<string, string>, now: map<string, string>) returns (issues: seq<CiIssue>)
    ensures forall i :: i in issues <==> exists f :: f in was && CiFieldIssue(t, f, was, now) == Some(i)
  {
    issues := [];
    var todo := was.Keys;
    while todo != {}
      invariant todo <= was.Keys
      invariant forall i :: i in issues <==>
                  exists f :: f in was && f !in todo && CiFieldIssue(t, f, was, now) == Some(i)
      decreases |todo|
    {
      var f :| f in todo;
      ghost var before := issues;
      if f !in now {
        var code := if t == "Mutation" then "MUTATION_REMOVED" else "FIELD_REMOVED";
        issues := issues + [Issue(code, t + "." + f + " was removed.", t, Some(f))];
      } else if now[f] != was[f] {
        var code := if !Required(was[f]) && Required(now[f]) then "FIELD_BECAME_REQUIRED" else "FIELD_TYPE_CHANGED";
        issues := issues + [Issue(code, t + "." + f + " changed from " + was[f] + " to " + now[f] + ".", t, Some(f))];
      }
      assert forall i :: i in issues <==> i in before || CiFieldIssue(t, f, was, now) == Some(i);
      hide CiFieldIssue;
      todo := todo - {f};
    }
  }

  method CiEnumIssues(e: string, removed: set<string>) returns (issues: seq<CiIssue>)
    ensures forall i :: i in issues <==>
              exists v :: v in removed && i == Issue("ENUM_VALUE_REMOVED", e + "." + v + " was removed.", e, Some(v))
  {
    hide Issue;
    issues := [];
    var left := removed;
    while left != {}
      invariant left <= removed
      invariant forall i :: i in issues <==>
                  exists v :: v in removed && v !in left
                    && i == Issue("ENUM_VALUE_REMOVED", e + "." + v + " was removed.", e, Some(v))
      decreases |left|
    {
      var v :| v in left;
      issues := issues + [Issue("ENUM_VALUE_REMOVED", e + "." + v + " was removed.", e, Some(v))];
      left := left - {v};
    }
  }

  ghost predicate CiTypeIssue(t: string, was: SdlDocument, now: SdlDocument, i: CiIssue) {
    t in was.types &&
    if t !in now.types then i == Issue("TYPE_REMOVED", "Type " + t + " was removed.", t, None)
    else
      exists f :: f in was.types[t].fields
        && CiFieldIssue(t, f, CiFields(was.types[t].fields), CiFields(now.types[t].fields)) == Some(i)
  }

  ghost predicate CiEnumIssue(e: string, was: SdlDocument, now: SdlDocument, i: CiIssue) {
    e in was.enums &&
    exists v :: v in was.enums[e] - ValuesOf(now, e)
      && i == Issue("ENUM_VALUE_REMOVED", e + "." + v + " was removed.", e, Some(v))
  }

  method LocalBreakingChanges(was: SdlDocument, now: SdlDocument) returns (issues: seq<CiIssue>)
    ensures forall i :: i in issues <==> CiReports(was, now, i)
  {
    issues := [];
    var todo := was.types.Keys;
    while todo != {}
      invariant todo <= was.types.Keys
      invariant forall i :: i in issues <==> exists t :: t !in todo && CiTypeIssue(t, was, now, i)
      decreases |todo|
    {
      var t :| t in todo;
      var more := [Issue("TYPE_REMOVED", "Type " + t + " was removed.", t, None)];
      if t in now.types {
        more := CiTypeIssues(t, CiFields(was.types[t].fields), CiFields(now.types[t].fields));
      }
      assert forall i :: i in more <==> CiTypeIssue(t, was, now, i);
      hide CiTypeIssue, CiFields, Issue, CiReports;
      issues := issues + more;
      todo := todo - {t};
    }
    var enums := was.enums.Keys;
    ghost var types := issues;
    while enums != {}
      invariant enums <= was.enums.Keys
      invariant forall i :: i in issues <==> i in types || exists e :: e !in enums && CiEnumIssue(e, was, now, i)
      decreases |enums|
    {
      var e :| e in enums;
      var more := CiEnumIssues(e, was.enums[e] - ValuesOf(now, e));
      assert forall i :: i in more <==> CiEnumIssue(e, was, now, i);
      hide CiEnumIssue, CiTypeIssue, CiFields, Issue, CiReports;
      issues := issues + more;
      enums := enums - {e};
    }
    forall i ensures i in issues <==> CiReports(was, now, i) {
      ReportedByTypeOrEnum(was, now, i);
    }
  }

  lemma ReportedByTypeOrEnum(was: SdlDocument, now: SdlDocument, i: CiIssue)
    ensures CiReports(was, now, i)
       <==> (exists t :: CiTypeIssue(t, was, now, i)) || (exists e :: CiEnumIssue(e, was, now, i))
  {
    hide CiFieldIssue, Issue;
    if CiReports(was, now, i) {
      if t, f :| t in was.types && t in now.types && f in was.types[t].fields
                 && CiFieldIssue(t, f, CiFields(was.types[t].fields), CiFields(now.types[t].fields)) == Some(i) {
        assert CiTypeIssue(t, was, now, i);
      } else if t :| t in was.types && t !in now.types
                     && i == Issue("TYPE_REMOVED", "Type " + t + " was removed.", t, None) {
        assert CiTypeIssue(t, was, now, i);
      } else {
        var e, v :| e in was.enums && v in was.enums[e] && v !in ValuesOf(now, e)
                    && i == Issue("ENUM_VALUE_REMOVED", e + "." + v + " was removed.", e, Some(v));
        assert v in was.enums[e] - ValuesOf(now, e);
        assert CiEnumIssue(e, was, now, i);
      }
    }
  }

  /** Like the registry's check, this one looks at nothing but fields and enum values. */
  lemma OnlyFieldsAndValuesMatter(was: SdlDocument, was': SdlDocument, now: SdlDocument, now': SdlDocument)
    requires SameFieldsAndValues(was, was') && SameFieldsAndValues(now, now')
    ensures forall i :: CiReports(was, now, i) <==> CiReports(was', now', i)
  {
    hide CiReports, CiTypeIssue, CiEnumIssue, SameFieldsAndValues;
    forall i ensures CiReports(was, now, i) <==> CiReports(was', now', i) {
      ReportedByTypeOrEnum(was, now, i);
      ReportedByTypeOrEnum(was', now', i);
      SameIssues(was, was', now, now', i);
    }
  }

  lemma SameIssues(was: SdlDocument, was': SdlDocument, now: SdlDocument, now': SdlDocument, i: CiIssue)
    requires SameFieldsAndValues(was, was') && SameFieldsAndValues(now, now')
    ensures forall t :: CiTypeIssue(t, was, now, i) <==> CiTypeIssue(t, was', now', i)
    ensures forall e :: CiEnumIssue(e, was, now, i) <==> CiEnumIssue(e, was', now', i)
  {
    hide CiFieldIssue, CiFields, Issue;
  }

  // ---- against the registry --------------------------------------------------------------------

  /** Every old type, field, written field type and enum value is kept. */
  ghost predicate Unchanged(was: SdlDocument, now: SdlDocument) {
    && (forall t :: t in was.types ==> t in now.types && CiFieldsKept(was.types[t].fields, now.types[t].fields))
    && forall e, v :: e in was.enums && v in was.enums[e] ==> v in ValuesOf(now, e)
  }

  ghost predicate CiFieldsKept(before: map<string, FieldDef>, after: map<string, FieldDef>) {
    forall f :: f in before ==> f in after && Normal(Written(after[f])) == Normal(Written(before[f]))
  }

  lemma CiSilentExactly(was: SdlDocument, now: SdlDocument)
    ensures (forall i :: !CiReports(was, now, i)) <==> Unchanged(was, now)
  {
    hide Normal, Written, Issue, Required;
    if forall i :: !CiReports(was, now, i) {
      forall t | t in was.types ensures t in now.types && CiFieldsKept(was.types[t].fields, now.types[t].fields) {
        assert t !in now.types ==> CiReports(was, now, Issue("TYPE_REMOVED", "Type " + t + " was removed.", t, None));
        forall f | f in was.types[t].fields
          ensures f in now.types[t].fields
                  && Normal(Written(now.types[t].fields[f])) == Normal(Written(was.types[t].fields[f]))
        {
          var i := CiFieldIssue(t, f, CiFields(was.types[t].fields), CiFields(now.types[t].fields));
          assert i.Some? ==> CiReports(was, now, i.value);
        }
      }
      forall e, v | e in was.enums && v in was.enums[e] ensures v in ValuesOf(now, e) {
        assert v !in ValuesOf(now, e) ==>
                 CiReports(was, now, Issue("ENUM_VALUE_REMOVED", e + "." + v + " was removed.", e, Some(v)));
      }
    }
    if Unchanged(was, now) {
      forall t, f | t in was.types && t in now.types && f in was.types[t].fields
        ensures CiFieldIssue(t, f, CiFields(was.types[t].fields), CiFields(now.types[t].fields)).None?
      {
        assert CiFieldsKept(was.types[t].fields, now.types[t].fields);
      }
    }
  }

  /** Some field of the old document is still there, with its type, but no longer required. */
  ghost predicate Relaxed(was: SdlDocument, now: SdlDocument) {
    exists t, f :: t in was.types && t in now.types && f in was.types[t].fields && f in now.types[t].fields
      && was.types[t].fields[f].typeRef == now.types[t].fields[f].typeRef
      && was.types[t].fields[f].required && !now.types[t].fields[f].required
  }

  /** Some field is in both documents with types that differ, be it in blanks only. */
  ghost predicate SomeTypeDiffers(was: SdlDocument, now: SdlDocument) {
    exists t, f :: t in was.types && t in now.types && f in was.types[t].fields && f in now.types[t].fields
      && was.types[t].fields[f].typeRef != now.types[t].fields[f].typeRef
  }

  lemma {:induction false} NormalAppends(a: string, b: string)
    ensures Normal(a + b) == Normal(a) + Normal(b)
  {
    hide IsSpace;
    if a == "" {
      assert a + b == b;
    } else {
      assert (a + b)[0] == a[0] && (a + b)[1..] == a[1..] + b;
      NormalAppends(a[1..], b);
    }
  }

  /** Two fields of one type that read the same once blanks are out are required alike. */
  lemma SameTypeSameFlag(f: FieldDef, g: FieldDef)
    requires f.typeRef == g.typeRef && Normal(Written(f)) == Normal(Written(g))
    ensures f.required == g.required
  {
    NormalAppends(f.typeRef, "!");
    assert "!"[1..] == "" && Normal("!") == "!";
    assert f.typeRef + "" == f.typeRef;
  }

  /**
   * Of any two documents that the build's check passes in silence, the registry's check is silent
   * too exactly when no field that both of them have differs in its type.
   */
  lemma CiSilenceReachesRegistryExactly(was: SdlDocument, now: SdlDocument, usage: Usage)
    requires forall i :: !CiReports(was, now, i)
    ensures (forall i :: !ToReport(was, now, usage, i)) <==> !SomeTypeDiffers(was, now)
  {
    CiSilentExactly(was, now);
    NothingToReportExactly(was, now, usage);
    hide CiReports, ToReport, Written, Normal;
    if !SomeTypeDiffers(was, now) {
      forall t | t in was.types ensures t in now.types && FieldsKept(was.types[t].fields, now.types[t].fields) {
        assert CiFieldsKept(was.types[t].fields, now.types[t].fields);
        forall f | f in was.types[t].fields
          ensures was.types[t].fields[f].typeRef == now.types[t].fields[f].typeRef
          ensures was.types[t].fields[f].required == now.types[t].fields[f].required
        {
          SameTypeSameFlag(was.types[t].fields[f], now.types[t].fields[f]);
        }
      }
    }
    if Compatible(was, now) {
      forall t, f | t in was.types && t in now.types && f in was.types[t].fields && f in now.types[t].fields
        ensures was.types[t].fields[f].typeRef == now.types[t].fields[f].typeRef
      {
        assert FieldsKept(was.types[t].fields, now.types[t].fields);
      }
    }
  }

  /** In the other direction, what only the build's check reports is a required field that became optional. */
  lemma RegistrySilenceReachesCiExactly(was: SdlDocument, now: SdlDocument, usage: Usage)
    requires forall i :: !ToReport(was, now, usage, i)
    ensures (forall i :: !CiReports(was, now, i)) <==> !Relaxed(was, now)
  {
    CiSilentExactly(was, now);
    NothingToReportExactly(was, now, usage);
    hide CiReports, ToReport, Written, Normal;
    forall t, f | t in was.types && f in was.types[t].fields
      ensures t in now.types && f in now.types[t].fields
              && was.types[t].fields[f].typeRef == now.types[t].fields[f].typeRef
      ensures Normal(Written(now.types[t].fields[f])) == Normal(Written(was.types[t].fields[f])) <==>
              was.types[t].fields[f].required == now.types[t].fields[f].required
    {
      assert FieldsKept(was.types[t].fields, now.types[t].fields);
      FlagsDecide(was.types[t].fields[f], now.types[t].fields[f]);
    }
    if Unchanged(was, now) {
      assert forall t :: t in was.types ==> CiFieldsKept(was.types[t].fields, now.types[t].fields);
    }
  }

  lemma FlagsDecide(f: FieldDef, g: FieldDef)
    requires f.typeRef == g.typeRef
    ensures Normal(Written(f)) == Normal(Written(g)) <==> f.required == g.required
  {
    if Normal(Written(f)) == Normal(Written(g)) {
      SameTypeSameFlag(f, g);
    }
  }

  /** So each check's silence, less what only the other one sees, is the other's. */
  lemma SilentTogetherExactly(was: SdlDocument, now: SdlDocument, usage: Usage)
    ensures (forall i :: !CiReports(was, now, i)) && !SomeTypeDiffers(was, now)
       <==> (forall i :: !ToReport(was, now, usage, i)) && !Relaxed(was, now)
  {
    hide CiReports, ToReport, Relaxed, SomeTypeDiffers;
    if forall i :: !CiReports(was, now, i) {
      CiSilenceReachesRegistryExactly(was, now, usage);
    }
    if forall i :: !ToReport(was, now, usage, i) {
      RegistrySilenceReachesCiExactly(was, now, usage);
      RegistrySilenceKeepsTypes(was, now, usage);
    }
  }

  lemma RegistrySilenceKeepsTypes(was: SdlDocument, now: SdlDocument, usage: Usage)
    requires forall i :: !ToReport(was, now, usage, i)
    ensures !SomeTypeDiffers(was, now)
  {
    NothingToReportExactly(was, now, usage);
    hide ToReport;
    assert forall t :: t in was.types ==> FieldsKept(was.types[t].fields, now.types[t].fields);
  }

  lemma NormalForms()
    ensures Normal("[A ]") == Normal("[A]")
  {
    NormalAppends("[A", " ]");
    NormalAppends("[A", "]");
    assert " ]"[1..] == "]" && Normal(" ]") == Normal("]");
    assert "[A" + " ]" == "[A ]" && "[A" + "]" == "[A]";
  }

  /** An instance: a change of blanks that only the registry sees. */
  lemma BlanksHideAChange(usage: Usage)
    ensures var before, after := FieldDef("f", "[A ]", false, false), FieldDef("f", "[A]", false, false);
      var was := SdlDocument(map["T" := TypeDef("T", "type", false, false, map["f" := before])], map[], map[]);
      var now := SdlDocument(map["T" := TypeDef("T", "type", false, false, map["f" := after])], map[], map[]);
      && (forall i :: !CiReports(was, now, i))
      && ToReport(was, now, usage, TypeChanged("T", before, after))
  {
    var before, after := FieldDef("f", "[A ]", false, false), FieldDef("f", "[A]", false, false);
    var was := SdlDocument(map["T" := TypeDef("T", "type", false, false, map["f" := before])], map[], map[]);
    var now := SdlDocument(map["T" := TypeDef("T", "type", false, false, map["f" := after])], map[], map[]);
    assert Written(before) == "[A ]" && Written(after) == "[A]";
    NormalForms();
    hide Normal, CiReports;
    CiSilentExactly(was, now);
    assert CiFieldsKept(was.types["T"].fields, now.types["T"].fields);
    assert FieldIssue("T", was.types["T"].fields, now.types["T"].fields, usage, "f", TypeChanged("T", before, after));
    assert TypeIssue("T", was, now, usage, TypeChanged("T", before, after));
  }

  // ---- merging reports ---------------------------------------------------------------------------

  datatype IssueKey = IssueKey(code: string, typeName: Option<string>, fieldName: Option<string>, message: string)

  function KeyOf(i: CiIssue): IssueKey { IssueKey(i.code, i.typeName, i.fieldName, i.message) }

  function KeysOf(s: seq<CiIssue>): set<IssueKey> { set i | i in s :: KeyOf(i) }

  /** The first issue of each key, in order. */
  function FirstOfEachKey(s: seq<CiIssue>): seq<CiIssue> {
    if s == [] then []
    else
      var before, last := FirstOfEachKey(s[..|s| - 1]), s[|s| - 1];
      if KeyOf(last) in KeysOf(s[..|s| - 1]) then before else before + [last]
  }

  function Concat(lists: seq<seq<CiIssue>>): seq<CiIssue> {
    if lists == [] then [] else Concat(lists[..|lists| - 1]) + lists[|lists| - 1]
  }

  method MergeIssues(lists: seq<seq<CiIssue>>) returns (merged: seq<CiIssue>)
    ensures merged == FirstOfEachKey(Concat(lists))
  {
    merged := [];
    var seen: set<IssueKey> := {};
    for l := 0 to |lists|
      invariant merged == FirstOfEachKey(Concat(lists[..l])) && seen == KeysOf(Concat(lists[..l]))
    {
      assert lists[..l + 1][..l] == lists[..l];
      ghost var before := Concat(lists[..l]);
      assert before + lists[l][..0] == before;
      for k := 0 to |lists[l]|
        invariant merged == FirstOfEachKey(before + lists[l][..k]) && seen == KeysOf(before + lists[l][..k])
      {
        OneMoreIssue(before, lists[l], k);
        if KeyOf(lists[l][k]) !in seen {
          seen := seen + {KeyOf(lists[l][k])};
          merged := merged + [lists[l][k]];
        }
      }
      assert lists[l][..|lists[l]|] == lists[l];
    }
    assert lists[..|lists|] == lists;
  }

  lemma OneMoreIssue(before: seq<CiIssue>, list: seq<CiIssue>, k: nat)
    requires k < |list|
    ensures var s, i := before + list[..k], list[k];
      && FirstOfEachKey(before + list[..k + 1])
      == (if KeyOf(i) in KeysOf(s) then FirstOfEachKey(s) else FirstOfEachKey(s) + [i])
      && KeysOf(before + list[..k + 1]) == KeysOf(s) + {KeyOf(i)}
  {
    var s, i := before + list[..k], list[k];
    assert before + list[..k + 1] == s + [i];
    assert (s + [i])[..|s|] == s;
    KeysGrow(s, i);
  }

  lemma KeysGrow(s: seq<CiIssue>, i: CiIssue)
    ensures KeysOf(s + [i]) == KeysOf(s) + {KeyOf(i)}
  {
    assert i in s + [i];
    forall j | j in s ensures KeyOf(j) in KeysOf(s + [i]) {
      assert j in s + [i];
    }
  }

  /** The n-th issue is the first of its key. */
  ghost predicate IsFirst(s: seq<CiIssue>, n: nat) { n < |s| && forall m :: 0 <= m < n ==> KeyOf(s[m]) != KeyOf(s[n]) }

  lemma {:induction false} NoKeyIsLost(s: seq<CiIssue>)
    ensures KeysOf(FirstOfEachKey(s)) == KeysOf(s)
  {
    hide KeysOf;
    if s == [] {
      assert FirstOfEachKey(s) == s;
    } else {
      var init, last := s[..|s| - 1], s[|s| - 1];
      NoKeyIsLost(init);
      assert s == init + [last];
      KeysGrow(init, last);
      KeysGrow(FirstOfEachKey(init), last);
    }
  }

  lemma {:induction false} NoKeyIsRepeated(s: seq<CiIssue>)
    ensures forall i, j :: 0 <= i < j < |FirstOfEachKey(s)| ==>
              KeyOf(FirstOfEachKey(s)[i]) != KeyOf(FirstOfEachKey(s)[j])
  {
    hide KeyOf;
    if s != [] {
      var init, last := s[..|s| - 1], s[|s| - 1];
      NoKeyIsRepeated(init);
      NoKeyIsLost(init);
      if KeyOf(last) !in KeysOf(init) {
        forall i | i in FirstOfEachKey(init) ensures KeyOf(i) != KeyOf(last) {
          assert KeyOf(i) in KeysOf(FirstOfEachKey(init));
        }
      }
    }
  }

  /** The issue is the first of its key somewhere. */
  ghost predicate FirstIs(s: seq<CiIssue>, i: CiIssue) {
    exists n: nat :: IsFirst(s, n) && s[n] == i
  }

  lemma {:induction false} FirstsAreKept(s: seq<CiIssue>)
    ensures forall i :: i in FirstOfEachKey(s) <==> FirstIs(s, i)
  {
    if s != [] {
      hide KeysOf, KeyOf, IsFirst, FirstIs;
      var n := |s| - 1;
      var init, last := s[..n], s[n];
      FirstsAreKept(init);
      assert s == init + [last];
      forall i ensures FirstIs(s, i) <==> FirstIs(init, i) || (KeyOf(last) !in KeysOf(init) && i == last) {
        FirstsOf(init, last, i);
      }
    }
  }

  lemma FirstsOf(s: seq<CiIssue>, last: CiIssue, i: CiIssue)
    ensures FirstIs(s + [last], i) <==> FirstIs(s, i) || (KeyOf(last) !in KeysOf(s) && i == last)
  {
    FirstsGrow(s, last);
    hide KeysOf, KeyOf;
    if m: nat :| IsFirst(s, m) && s[m] == i {
      assert IsFirst(s + [last], m) && (s + [last])[m] == i;
    }
    if KeyOf(last) !in KeysOf(s) && i == last {
      assert IsFirst(s + [last], |s|) && (s + [last])[|s|] == i;
    }
  }

  /** Merging drops no key, repeats none, and of each key keeps the first issue and no other. */
  lemma MergingKeepsTheFirst(s: seq<CiIssue>)
    ensures KeysOf(FirstOfEachKey(s)) == KeysOf(s)
    ensures forall i, j :: 0 <= i < j < |FirstOfEachKey(s)| ==>
              KeyOf(FirstOfEachKey(s)[i]) != KeyOf(FirstOfEachKey(s)[j])
    ensures forall i :: i in FirstOfEachKey(s) <==> FirstIs(s, i)
  {
    hide FirstOfEachKey, KeysOf, KeyOf, IsFirst;
    NoKeyIsLost(s);
    NoKeyIsRepeated(s);
    FirstsAreKept(s);
  }

  lemma FirstsGrow(s: seq<CiIssue>, last: CiIssue)
    ensures forall n: nat :: n < |s| ==> (IsFirst(s + [last], n) <==> IsFirst(s, n)) && (s + [last])[n] == s[n]
    ensures IsFirst(s + [last], |s|) <==> KeyOf(last) !in KeysOf(s)
  {
    if !IsFirst(s + [last], |s|) {
      var m :| 0 <= m < |s| && KeyOf(s[m]) == KeyOf(last);
      assert s[m] in s;
    }
    if KeyOf(last) in KeysOf(s) {
      var i :| i in s && KeyOf(i) == KeyOf(last);
      var m :| 0 <= m < |s| && s[m] == i;
      assert (s + [last])[m] == i && (s + [last])[|s|] == last;
    }
  }
}
