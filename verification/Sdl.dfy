/**
 * The registry's SDL line parser (SdlModel.kt). Each regular expression of the source is a
 * hand-written matcher here; the notes say why backtracking makes no difference.
 */
module Sdl {
  import opened Common

  datatype FieldDef = FieldDef(name: string, typeRef: string, required: bool, description: bool)

  datatype TypeDef = TypeDef(name: string, kind: string, hasKey: bool, description: bool, fields: map<string, FieldDef>)

  /** Enums and unions by name, with their values and members. */
  datatype SdlDocument = SdlDocument(types: map<string, TypeDef>, enums: map<string, set<string>>,
                                     unions: map<string, set<string>>)

  const NOTHING := SdlDocument(map[], map[], map[])

  // ---- characters ------------------------------------------------------------------------

  /** `\s` of a regular expression. */
  predicate IsBlank(c: char) { c in {' ', '\t', '\n', '\U{0B}', '\U{0C}', '\r'} }

  /** What trimming removes: every Unicode space. */
  predicate IsSpace(c: char) {
    || IsBlank(c) || '\U{1C}' <= c <= '\U{1F}' || '\U{2000}' <= c <= '\U{200A}'
    || c in {'\U{85}', '\U{A0}', '\U{1680}', '\U{2028}', '\U{2029}', '\U{202F}', '\U{205F}', '\U{3000}'}
  }

  /** `\w` of a regular expression. */
  predicate IsWord(c: char) { 'a' <= c <= 'z' || 'A' <= c <= 'Z' || '0' <= c <= '9' || c == '_' }

  /** `.` of a regular expression: no line terminator. */
  predicate IsDot(c: char) { c !in {'\n', '\r', '\U{85}', '\U{2028}', '\U{2029}'} }

  predicate All(s: string, p: char -> bool) { forall i :: 0 <= i < |s| ==> p(s[i]) }

  /** The first position from `i` on whose character fails `p`. */
  function SkipWhile(s: string, i: nat, p: char -> bool): (j: nat)
    requires i <= |s|
    ensures i <= j <= |s|
    decreases |s| - i
  {
    if i < |s| && p(s[i]) then SkipWhile(s, i + 1, p) else i
  }

  function TrimStart(s: string): string { s[SkipWhile(s, 0, IsSpace)..] }

  function TrimEnd(s: string): string { if s != "" && IsSpace(s[|s| - 1]) then TrimEnd(s[..|s| - 1]) else s }

  function Trim(s: string): string { TrimEnd(TrimStart(s)) }

  function Split(s: string, c: char): seq<string> {
    var j := SkipWhile(s, 0, x => x != c);
    if j == |s| then [s] else [s[..j]] + Split(s[j + 1..], c)
  }

  // ---- matchers ----------------------------------------------------------------------------

  datatype Head = Head(name: string, after: nat)

  /** `^keyword\s+(\w+)`: a longest run of word characters is the only one that can be followed by anything else. */
  function MatchHead(line: string, keyword: string): (r: Option<Head>)
    ensures r.Some? ==> r.value.after <= |line|
  {
    if !(keyword <= line) then None
    else
      var a := SkipWhile(line, |keyword|, IsBlank);
      var b := SkipWhile(line, a, IsWord);
      if a == |keyword| || b == a then None else Some(Head(line[a..b], b))
  }

  datatype UnionLine = UnionLine(name: string, members: string)

  /** `^union\s+(\w+)\s*=\s*(.+)$` on a trimmed line, whose end is no blank. */
  function MatchUnion(line: string): Option<UnionLine> {
    match MatchHead(line, "union")
    case None => None
    case Some(h) =>
      var c := SkipWhile(line, h.after, IsBlank);
      if c == |line| || line[c] != '=' then None
      else
        var d := SkipWhile(line, c + 1, IsBlank);
        if d == |line| || SkipWhile(line, d, IsDot) < |line| then None else Some(UnionLine(h.name, line[d..]))
  }

  datatype TypeLine = TypeLine(kind: string, name: string, suffix: string)

  /** `^(type|interface|input)\s+(\w+)([^{]*)\{?`. */
  function MatchType(line: string): Option<TypeLine> {
    var kind := if "type" <= line then "type" else if "interface" <= line then "interface" else "input";
    match MatchHead(line, kind)
    case None => None
    case Some(h) => Some(TypeLine(kind, h.name, line[h.after..SkipWhile(line, h.after, c => c != '{')]))
  }

  datatype FieldLine = FieldLine(name: string, typeRef: string)

  /**
   * `^(\w+)\s*(?:\([^)]*\))?\s*:\s*([^@#]+)`, the last group trimmed. Whatever blanks the last `\s*` gives
   * back are trimmed off again, so the line matches when anything stands between the colon and an `@` or `#`.
   */
  function MatchField(line: string): Option<FieldLine> {
    var w := SkipWhile(line, 0, IsWord);
    var p := SkipWhile(line, w, IsBlank);
    var close := if p < |line| && line[p] == '(' then SkipWhile(line, p, c => c != ')') else |line|;
    var q := if close < |line| then close + 1 else p;
    var u := SkipWhile(line, q, IsBlank);
    if w == 0 || u == |line| || line[u] != ':' then None
    else
      var e := SkipWhile(line, u + 1, c => c != '@' && c != '#');
      if e == u + 1 then None else Some(FieldLine(line[..w], Trim(line[u + 1..e])))
  }

  predicate Quoted(line: string) { "\"\"\"" <= line || "\"" <= line }

  predicate Closes(line: string) { "}" <= Trim(line) }

  function EnumWord(line: string): string {
    var v := Trim(line);
    var w := v[..SkipWhile(v, 0, c => c != ' ')];
    w[..SkipWhile(w, 0, c => c != '@')]
  }

  /** `[A-Z][A-Z0-9_]*`. */
  predicate IsEnumValue(v: string) {
    v != "" && 'A' <= v[0] <= 'Z' && forall i :: 0 <= i < |v| ==>
      'A' <= v[i] <= 'Z' || '0' <= v[i] <= '9' || v[i] == '_'
  }

  function Members(text: string): set<string> { set m | m in Split(text, '|') && Trim(m) != "" :: Trim(m) }

  predicate Required(typeRef: string) { typeRef != "" && typeRef[|typeRef| - 1] == '!' }

  function Bare(typeRef: string): string { if Required(typeRef) then typeRef[..|typeRef| - 1] else typeRef }

  // ---- what the parser computes ----------------------------------------------------------------

  function EnumBody(lines: seq<string>, values: set<string>): (r: (set<string>, seq<string>))
    ensures |r.1| <= |lines|
  {
    if lines == [] || Closes(lines[0]) then (values, lines)
    else EnumBody(lines[1..], if IsEnumValue(EnumWord(lines[0])) then values + {EnumWord(lines[0])} else values)
  }

  function TypeBody(lines: seq<string>, pending: bool,
                    fields: map<string, FieldDef>): (r: (map<string, FieldDef>, seq<string>))
    ensures |r.1| <= |lines|
  {
    if lines == [] || Closes(lines[0]) then (fields, lines)
    else if Quoted(Trim(lines[0])) then TypeBody(lines[1..], true, fields)
    else
      match MatchField(Trim(lines[0]))
      case None => TypeBody(lines[1..], pending, fields)
      case Some(f) => TypeBody(lines[1..], false, fields[f.name :=
        FieldDef(f.name, Bare(f.typeRef), Required(f.typeRef), pending)])
  }

  function Rest(lines: seq<string>): seq<string> { if lines == [] then [] else lines[1..] }

  function ParseLines(lines: seq<string>, pending: bool, doc: SdlDocument): SdlDocument
    decreases |lines|
  {
    if lines == [] then doc
    else
      var line := Trim(lines[0]);
      if Quoted(line) then ParseLines(lines[1..], true, doc)
      else
        match MatchUnion(line)
        case Some(u) => ParseLines(lines[1..], false, doc.(unions := doc.unions[u.name := Members(u.members)]))
        case None =>
          match MatchHead(line, "enum")
          case Some(h) =>
            var (values, rest) := EnumBody(lines[1..], {});
            ParseLines(Rest(rest), false, doc.(enums := doc.enums[h.name := values]))
          case None =>
            match MatchType(line)
            case Some(t) =>
              var (fields, rest) := TypeBody(lines[1..], false, map[]);
              var def := TypeDef(t.name, t.kind, Contains(t.suffix, "@key"), pending, fields);
              ParseLines(Rest(rest), false, doc.(types := doc.types[t.name := def]))
            case None => ParseLines(lines[1..], false, doc)
  }

  /** Lines end in a line feed, a carriage return, or both in that order of typing. */
  function Lines(text: string): seq<string> {
    var j := SkipWhile(text, 0, c => c != '\n' && c != '\r');
    if j == |text| then [text]
    else [text[..j]] + Lines(text[if text[j] == '\r' && j + 1 < |text| && text[j + 1] == '\n' then j + 2 else j + 1..])
  }

  // ---- the parser --------------------------------------------------------------------------------

  function From(lines: seq<string>, i: nat): seq<string> { if i <= |lines| then lines[i..] else [] }

  lemma FromHere(lines: seq<string>, i: nat)
    requires i <= |lines|
    ensures |From(lines, i)| == |lines| - i && From(lines, i + 1) == Rest(From(lines, i))
    ensures i < |lines| ==> From(lines, i)[0] == lines[i] && From(lines, i)[1..] == From(lines, i + 1)
  {
  }

  /** The enum's inner loop, from the line after its head to the one that closes it. */
  method ReadEnumBody(lines: seq<string>, start: nat) returns (values: set<string>, i: nat)
    requires start <= |lines|
    ensures start <= i <= |lines| && EnumBody(From(lines, start), {}) == (values, From(lines, i))
  {
    hide Closes, EnumWord, IsEnumValue, From, Rest;
    values, i := {}, start;
    FromHere(lines, i);
    while i < |lines| && !Closes(lines[i])
      invariant start <= i <= |lines|
      invariant EnumBody(From(lines, i), values) == EnumBody(From(lines, start), {})
      decreases |lines| - i
    {
      FromHere(lines, i);
      var v := EnumWord(lines[i]);
      if IsEnumValue(v) {
        values := values + {v};
      }
      i := i + 1;
    }
    FromHere(lines, i);
  }

  /** The type's inner loop. */
  method ReadTypeBody(lines: seq<string>, start: nat) returns (fields: map<string, FieldDef>, i: nat)
    requires start <= |lines|
    ensures start <= i <= |lines| && TypeBody(From(lines, start), false, map[]) == (fields, From(lines, i))
  {
    hide MatchField, Quoted, Trim, Closes, Bare, Required, From, Rest;
    var pendingDescription := false;
    fields, i := map[], start;
    while i < |lines| && !Closes(lines[i])
      invariant start <= i <= |lines|
      invariant TypeBody(From(lines, i), pendingDescription, fields) == TypeBody(From(lines, start), false, map[])
      decreases |lines| - i
    {
      FromHere(lines, i);
      var fieldLine := Trim(lines[i]);
      if Quoted(fieldLine) {
        pendingDescription := true;
        i := i + 1;
        continue;
      }
      var field := MatchField(fieldLine);
      if field.Some? {
        var f := field.value;
        fields := fields[f.name := FieldDef(f.name, Bare(f.typeRef), Required(f.typeRef), pendingDescription)];
        pendingDescription := false;
      }
      i := i + 1;
    }
    FromHere(lines, i);
  }

  method Parse(sdl: string) returns (doc: SdlDocument)
    ensures doc == ParseLines(Lines(sdl), false, NOTHING)
  {
    hide MatchUnion, MatchHead, MatchType, Quoted, Trim, Members, Contains, Lines, EnumBody, TypeBody;
    var lines := Lines(sdl);
    assert From(lines, 0) == lines;
    hide From, Rest;
    doc := NOTHING;
    var pendingDescription := false;
    var i := 0;
    while i < |lines|
      invariant ParseLines(From(lines, i), pendingDescription, doc) == ParseLines(lines, false, NOTHING)
      decreases |lines| - i
    {
      FromHere(lines, i);
      var line := Trim(lines[i]);
      if Quoted(line) {
        pendingDescription := true;
        i := i + 1;
        continue;
      }
      var union := MatchUnion(line);
      if union.Some? {
        doc := doc.(unions := doc.unions[union.value.name := Members(union.value.members)]);
        pendingDescription := false;
        i := i + 1;
        continue;
      }
      var enumMatch := MatchHead(line, "enum");
      if enumMatch.Some? {
        var values, end := ReadEnumBody(lines, i + 1);
        FromHere(lines, end);
        doc := doc.(enums := doc.enums[enumMatch.value.name := values]);
        pendingDescription := false;
        i := end + 1;
        continue;
      }
      var typeMatch := MatchType(line);
      if typeMatch.Some? {
        var t := typeMatch.value;
        var fields, end := ReadTypeBody(lines, i + 1);
        FromHere(lines, end);
        doc := doc.(types := doc.types[t.name :=
          TypeDef(t.name, t.kind, Contains(t.suffix, "@key"), pendingDescription, fields)]);
        i := end;
      }
      pendingDescription := false;
      i := i + 1;
    }
    assert From(lines, i) == [];
  }
}
