/** What each reported issue says and when it is reported (SchemaCheckService.kt, scripts/ci/schema_check.py). */
module IssueCodes {
  import opened Common
  import opened Joins
  import opened Sdl
  import opened SchemaCheck
  import CiSchemaCheck

  // ---- the registry ----------------------------------------------------------------------------

  predicate IsWarning(i: Issue, code: string, message: string) {
    i.severity == "warning" && i.code == code && i.message == message && i.usageByClient == []
  }

  predicate SaysTypeRemoved(i: Issue, was: SdlDocument, now: SdlDocument) {
    && i.typeName in was.types && i.typeName !in now.types && i.fieldName == None
    && IsWarning(i, "BREAKING_TYPE_REMOVED", "Type " + i.typeName + " was removed.")
  }

  predicate IsField(t: string, f: string, doc: SdlDocument) { t in doc.types && f in doc.types[t].fields }

  /** An error when some client has used the field, with those clients, and a warning when none has. */
  predicate SaysFieldRemoved(i: Issue, was: SdlDocument, now: SdlDocument, usage: Usage, f: string) {
    && i.fieldName == Some(f) && i.code == "BREAKING_FIELD_REMOVED"
    && IsField(i.typeName, f, was) && i.typeName in now.types && !IsField(i.typeName, f, now)
    && i.usageByClient == usage(i.typeName, f)
    && var message := "Field " + i.typeName + "." + f + " was removed.";
    if |usage(i.typeName, f)| > 0
    then i.severity == "error" && i.message == message + " Recent usage exists in the last 30 days."
    else i.severity == "warning" && i.message == message
  }

  predicate SaysTypeChanged(i: Issue, was: SdlDocument, now: SdlDocument, f: string) {
    && i.fieldName == Some(f) && IsField(i.typeName, f, was) && IsField(i.typeName, f, now)
    && var (before, after) := (was.types[i.typeName].fields[f].typeRef, now.types[i.typeName].fields[f].typeRef);
    && before != after
    && IsWarning(i, "BREAKING_FIELD_TYPE_CHANGED",
                 "Field " + i.typeName + "." + f + " changed type from " + before + " to " + after + ".")
  }

  predicate SaysBecameRequired(i: Issue, was: SdlDocument, now: SdlDocument, f: string) {
    && i.fieldName == Some(f) && IsField(i.typeName, f, was) && IsField(i.typeName, f, now)
    && !was.types[i.typeName].fields[f].required && now.types[i.typeName].fields[f].required
    && IsWarning(i, "BREAKING_OPTIONAL_TO_REQUIRED",
                 "Field " + i.typeName + "." + f + " changed from optional to required.")
  }

  predicate SaysValueRemoved(i: Issue, was: SdlDocument, now: SdlDocument, v: string) {
    && i.fieldName == Some(v) && i.typeName in was.enums && v in was.enums[i.typeName]
    && (i.typeName in now.enums ==> v !in now.enums[i.typeName])
    && IsWarning(i, "BREAKING_ENUM_VALUE_REMOVED", "Enum value " + i.typeName + "." + v + " was removed.")
  }

  predicate SaysMutationRemoved(i: Issue, was: SdlDocument, now: SdlDocument, f: string) {
    && i.typeName == "Mutation" && i.fieldName == Some(f) && IsField("Mutation", f, was) && !IsField("Mutation", f, now)
    && IsWarning(i, "BREAKING_MUTATION_REMOVED", "Mutation " + f + " was removed.")
  }

  predicate Says(i: Issue, was: SdlDocument, now: SdlDocument, usage: Usage) {
    || SaysTypeRemoved(i, was, now)
    || (i.fieldName.Some? &&
        var f := i.fieldName.value;
        || SaysFieldRemoved(i, was, now, usage, f) || SaysTypeChanged(i, was, now, f)
        || SaysBecameRequired(i, was, now, f) || SaysValueRemoved(i, was, now, f)
           || SaysMutationRemoved(i, was, now, f))
  }

  lemma FieldIssueSays(t: string, was: SdlDocument, now: SdlDocument, usage: Usage, f: string, i: Issue)
    requires SoundDocument(was) && t in was.types && t in now.types
    ensures FieldIssue(t, was.types[t].fields, now.types[t].fields, usage, f, i) <==>
      && i.typeName == t && i.fieldName == Some(f)
      && (SaysFieldRemoved(i, was, now, usage, f) || SaysTypeChanged(i, was, now, f)
          || SaysBecameRequired(i, was, now, f))
  {
    assert SoundFields(was.types[t].fields);
  }

  lemma ValueIssueSays(was: SdlDocument, now: SdlDocument, v: string, i: Issue)
    requires SaysValueRemoved(i, was, now, v)
    ensures EnumIssue(i.typeName, was, now, i)
  {
    assert v in was.enums[i.typeName] - ValuesOf(now, i.typeName);
    assert i == ValueRemoved(i.typeName, v);
  }

  lemma MutationIssueSays(was: SdlDocument, now: SdlDocument, f: string, i: Issue)
    requires SaysMutationRemoved(i, was, now, f)
    ensures MutationIssue(was, now, i)
  {
    assert f in FieldsOf(was, "Mutation").Keys - FieldsOf(now, "Mutation").Keys;
    assert i == MutationRemoved(f);
  }

  lemma TypeIssueSays(was: SdlDocument, now: SdlDocument, usage: Usage, i: Issue)
    requires SaysTypeRemoved(i, was, now)
    ensures TypeIssue(i.typeName, was, now, usage, i)
  {
    assert i == TypeRemoved(i.typeName);
  }

  /**
   * An issue is reported exactly when the documents and the usage are as its code says; its severity,
   * message and clients follow from them.
   */
  lemma ReportedExactly(was: SdlDocument, now: SdlDocument, usage: Usage, i: Issue)
    requires SoundDocument(was)
    ensures ToReport(was, now, usage, i) <==> Says(i, was, now, usage)
  {
    if Says(i, was, now, usage) {
      SaidIsReported(was, now, usage, i);
    }
    if ToReport(was, now, usage, i) {
      ReportSays(was, now, usage, i);
    }
  }

  lemma SaidIsReported(was: SdlDocument, now: SdlDocument, usage: Usage, i: Issue)
    requires SoundDocument(was) && Says(i, was, now, usage)
    ensures ToReport(was, now, usage, i)
  {
    var t := i.typeName;
    if SaysTypeRemoved(i, was, now) {
      TypeIssueSays(was, now, usage, i);
    } else {
      var f := i.fieldName.value;
      if SaysValueRemoved(i, was, now, f) {
        ValueIssueSays(was, now, f, i);
      } else if SaysMutationRemoved(i, was, now, f) {
        MutationIssueSays(was, now, f, i);
      } else {
        FieldIssueSays(t, was, now, usage, f, i);
        assert TypeIssue(t, was, now, usage, i);
      }
    }
  }

  lemma ReportSays(was: SdlDocument, now: SdlDocument, usage: Usage, i: Issue)
    requires SoundDocument(was) && ToReport(was, now, usage, i)
    ensures Says(i, was, now, usage)
  {
    if t :| TypeIssue(t, was, now, usage, i) {
      if t in now.types {
        var f :| FieldIssue(t, was.types[t].fields, now.types[t].fields, usage, f, i);
        FieldIssueSays(t, was, now, usage, f, i);
      }
    }
  }

  /** Only the removal of a field that clients have used lately is an error. */
  lemma ErrorsAreUsedRemovals(was: SdlDocument, now: SdlDocument, usage: Usage, i: Issue)
    requires SoundDocument(was) && ToReport(was, now, usage, i)
    ensures i.severity == "error" <==>
            i.code == "BREAKING_FIELD_REMOVED" && i.fieldName.Some? && |usage(i.typeName, i.fieldName.value)| > 0
    ensures i.severity in {"error", "warning"} && (i.severity == "warning" ==> i.usageByClient == [])
  {
    ReportedExactly(was, now, usage, i);
  }

  // ---- the build -------------------------------------------------------------------------------------

  /** A field's type as the build compares it: as written, without blanks. */
  function Read(t: string, f: string, doc: SdlDocument): string
    requires IsField(t, f, doc)
  {
    var def := doc.types[t].fields[f];
    CiSchemaCheck.Normal(if def.required then def.typeRef + "!" else def.typeRef)
  }

  predicate EndsInBang(s: string) { |s| > 0 && s[|s| - 1] == '!' }

  predicate CiSaysTypeRemoved(i: CiSchemaCheck.CiIssue, was: SdlDocument, now: SdlDocument, t: string) {
    && t in was.types && t !in now.types && i.fieldName == None
    && i.code == "TYPE_REMOVED" && i.message == "Type " + t + " was removed."
  }

  predicate CiSaysFieldRemoved(i: CiSchemaCheck.CiIssue, was: SdlDocument, now: SdlDocument, t: string, f: string) {
    && IsField(t, f, was) && t in now.types && !IsField(t, f, now)
    && i.code == (if t == "Mutation" then "MUTATION_REMOVED" else "FIELD_REMOVED")
    && i.message == t + "." + f + " was removed."
  }

  predicate CiSaysFieldChanged(i: CiSchemaCheck.CiIssue, was: SdlDocument, now: SdlDocument, t: string, f: string) {
    && IsField(t, f, was) && IsField(t, f, now)
    && var (before, after) := (Read(t, f, was), Read(t, f, now));
    && before != after && i.message == t + "." + f + " changed from " + before + " to " + after + "."
    && i.code == (if EndsInBang(after) && !EndsInBang(before) then "FIELD_BECAME_REQUIRED" else "FIELD_TYPE_CHANGED")
  }

  predicate CiSaysValueRemoved(i: CiSchemaCheck.CiIssue, was: SdlDocument, now: SdlDocument, e: string, v: string) {
    && e in was.enums && v in was.enums[e] && (e in now.enums ==> v !in now.enums[e])
    && i.code == "ENUM_VALUE_REMOVED" && i.message == e + "." + v + " was removed."
  }

  predicate CiSays(i: CiSchemaCheck.CiIssue, was: SdlDocument, now: SdlDocument) {
    && i.severity == "BREAKING" && i.typeName.Some?
    && var t := i.typeName.value;
    || CiSaysTypeRemoved(i, was, now, t)
    || (i.fieldName.Some? &&
        var f := i.fieldName.value;
        CiSaysFieldRemoved(i, was, now, t, f) || CiSaysFieldChanged(i, was, now, t, f)
          || CiSaysValueRemoved(i, was, now, t, f))
  }

  lemma CiFieldSays(was: SdlDocument, now: SdlDocument, t: string, f: string, i: CiSchemaCheck.CiIssue)
    requires IsField(t, f, was) && t in now.types
    ensures CiSchemaCheck.CiFieldIssue(t, f, CiSchemaCheck.CiFields(was.types[t].fields),
                                       CiSchemaCheck.CiFields(now.types[t].fields)) == Some(i) <==>
      && i.severity == "BREAKING" && i.typeName == Some(t) && i.fieldName == Some(f)
      && (CiSaysFieldRemoved(i, was, now, t, f) || CiSaysFieldChanged(i, was, now, t, f))
  {
    hide CiSchemaCheck.Normal;
    AsWritten(was, t, f);
    if IsField(t, f, now) {
      AsWritten(now, t, f);
    }
  }

  lemma AsWritten(doc: SdlDocument, t: string, f: string)
    requires IsField(t, f, doc)
    ensures CiSchemaCheck.CiFields(doc.types[t].fields)[f] == Read(t, f, doc)
  {
    hide CiSchemaCheck.Normal;
    assert doc.types[t].fields[f].typeRef + "" == doc.types[t].fields[f].typeRef;
  }

  lemma CiReportSays(was: SdlDocument, now: SdlDocument, i: CiSchemaCheck.CiIssue)
    requires CiSchemaCheck.CiReports(was, now, i)
    ensures CiSays(i, was, now)
  {
    hide CiSchemaCheck.CiFieldIssue, CiSaysFieldRemoved, CiSaysFieldChanged, CiSchemaCheck.Normal;
    if t, f :| t in was.types && t in now.types && f in was.types[t].fields
               && CiSchemaCheck.CiFieldIssue(t, f, CiSchemaCheck.CiFields(was.types[t].fields),
                                             CiSchemaCheck.CiFields(now.types[t].fields)) == Some(i) {
      CiFieldSays(was, now, t, f, i);
    }
  }

  lemma CiSaidIsReported(was: SdlDocument, now: SdlDocument, i: CiSchemaCheck.CiIssue)
    requires CiSays(i, was, now)
    ensures CiSchemaCheck.CiReports(was, now, i)
  {
    hide CiSchemaCheck.CiFieldIssue, CiSchemaCheck.Normal, Read;
    var t := i.typeName.value;
    if i.fieldName.Some? && IsField(t, i.fieldName.value, was) && t in now.types {
      CiFieldSays(was, now, t, i.fieldName.value, i);
    }
    if i.fieldName.Some? && CiSaysValueRemoved(i, was, now, t, i.fieldName.value) {
      var v := i.fieldName.value;
      assert v in was.enums[t] && v !in ValuesOf(now, t);
      assert i == CiSchemaCheck.Issue("ENUM_VALUE_REMOVED", t + "." + v + " was removed.", t, Some(v));
    }
  }

  /** The build reports an issue exactly when the documents are as its code says. */
  lemma CiReportedExactly(was: SdlDocument, now: SdlDocument, i: CiSchemaCheck.CiIssue)
    ensures CiSchemaCheck.CiReports(was, now, i) <==> CiSays(i, was, now)
  {
    hide CiSchemaCheck.CiReports, CiSays;
    if CiSchemaCheck.CiReports(was, now, i) {
      CiReportSays(was, now, i);
    }
    if CiSays(i, was, now) {
      CiSaidIsReported(was, now, i);
    }
  }

  /** Taking the blanks out keeps every other character, in order. */
  lemma {:induction false} NormalKeepsTheRest(s: string) returns (at: seq<nat>)
    ensures PositionsWith(at, s, NotBlank) && |at| == |CiSchemaCheck.Normal(s)|
    ensures forall k :: 0 <= k < |at| ==> at[k] < |s| && CiSchemaCheck.Normal(s)[k] == s[at[k]]
  {
    hide PositionsWith, IsSpace, NotBlank;
    if s == "" {
      at := [];
      NoPositions(NotBlank);
    } else {
      var n := |s| - 1;
      at := NormalKeepsTheRest(s[..n]);
      OneMorePosition(at, s[..n], s[n], NotBlank);
      CiSchemaCheck.NormalAppends(s[..n], [s[n]]);
      assert s == s[..n] + [s[n]];
      OneCharacter(s[n]);
      at := if NotBlank(s[n]) then at + [n] else at;
    }
  }

  predicate NotBlank(c: char) { !Sdl.IsSpace(c) }

  lemma OneCharacter(c: char)
    ensures CiSchemaCheck.Normal([c]) == if NotBlank(c) then [c] else ""
  {
    assert [c][1..] == "";
  }

  // ---- merged reports ----------------------------------------------------------------------------------

  predicate SameIssue(a: CiSchemaCheck.CiIssue, b: CiSchemaCheck.CiIssue) {
    a.code == b.code && a.typeName == b.typeName && a.fieldName == b.fieldName && a.message == b.message
  }

  /** No earlier issue is the same but for its severity. */
  predicate IsNew(s: seq<CiSchemaCheck.CiIssue>, n: int) {
    0 <= n < |s| && forall m :: 0 <= m < n ==> !SameIssue(s[m], s[n])
  }

  /** Merged reports hold exactly the issues that are new where they stand, in their order. */
  lemma {:induction false} MergedInOrder(s: seq<CiSchemaCheck.CiIssue>) returns (at: seq<nat>)
    ensures |at| == |CiSchemaCheck.FirstOfEachKey(s)|
    ensures forall k :: 0 <= k < |at| ==> at[k] < |s| && CiSchemaCheck.FirstOfEachKey(s)[k] == s[at[k]]
    ensures forall j, k :: 0 <= j < k < |at| ==> at[j] < at[k]
    ensures forall n :: 0 <= n < |s| ==> (n in at <==> IsNew(s, n))
  {
    if s == [] {
      at := [];
    } else {
      hide SameIssue, CiSchemaCheck.KeysOf;
      var n := |s| - 1;
      at := MergedInOrder(s[..n]);
      assert forall m :: 0 <= m < n ==> s[..n][m] == s[m];
      LastIsNew(s);
      at := if IsNew(s, n) then at + [n] else at;
    }
  }

  lemma LastIsNew(s: seq<CiSchemaCheck.CiIssue>)
    requires s != []
    ensures var n := |s| - 1;
      IsNew(s, n) <==> CiSchemaCheck.KeyOf(s[n]) !in CiSchemaCheck.KeysOf(s[..n])
    ensures forall m :: 0 <= m < |s| - 1 ==> (IsNew(s, m) <==> IsNew(s[..|s| - 1], m))
  {
    var n := |s| - 1;
    assert forall m :: 0 <= m < n ==> s[..n][m] == s[m];
    assert forall m :: 0 <= m < n ==>
        (SameIssue(s[m], s[n]) <==> CiSchemaCheck.KeyOf(s[m]) == CiSchemaCheck.KeyOf(s[n]));
    if CiSchemaCheck.KeyOf(s[n]) in CiSchemaCheck.KeysOf(s[..n]) {
      var i :| i in s[..n] && CiSchemaCheck.KeyOf(i) == CiSchemaCheck.KeyOf(s[n]);
      var m :| 0 <= m < n && s[..n][m] == i;
      assert SameIssue(s[m], s[n]);
    }
  }
}
