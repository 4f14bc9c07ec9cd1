/** A canonical printer for schema documents, one item per line, and the proof that the SDL parser undoes it. */
module SdlPrinter {
  import opened Common
  import opened Sdl
  import opened SdlLines

  /**
   * `arguments` is what stands between the parentheses of a field, where there are any, and
   * `directives` what follows its type: directives, a comment, or both.
   */
  datatype FieldItem = FieldItem(name: string, arguments: Option<string>, base: string, required: bool,
                                 directives: string)

  /** A line of a type's body: a description, a field, or anything that is neither. */
  datatype Part = Described(text: string) | FieldPart(f: FieldItem) | OtherPart(line: string)

  datatype EnumValue = EnumValue(name: string, directives: string)

  /** `suffix` is what stands between a type's name and its brace: interfaces and directives. */
  datatype Item =
    | Description(text: string)
    | TypeItem(kind: string, name: string, suffix: string, parts: seq<Part>)
    | EnumItem(name: string, values: seq<EnumValue>)
    | UnionItem(name: string, members: seq<string>)
    | OtherItem(line: string)

  // ---- printing ----------------------------------------------------------------------------

  function QuotedText(text: string): string { "\"\"\"" + text + "\"\"\"" }

  function TypeRef(f: FieldItem): string { f.base + if f.required then "!" else "" }

  function ArgumentText(f: FieldItem): string { match f.arguments case None => "" case Some(a) => "(" + a + ")" }

  function Tail(directives: string): string { if directives == "" then "" else " " + directives }

  function FieldText(f: FieldItem): string { f.name + ArgumentText(f) + ": " + TypeRef(f) + Tail(f.directives) }

  function PartText(p: Part): string {
    match p case Described(d) => QuotedText(d) case FieldPart(f) => FieldText(f) case OtherPart(line) => line
  }

  function PartLines(parts: seq<Part>): seq<string> {
    if parts == [] then [] else ["  " + PartText(parts[0])] + PartLines(parts[1..])
  }

  function ValueText(v: EnumValue): string { v.name + Tail(v.directives) }

  function ValueLines(values: seq<EnumValue>): seq<string> {
    if values == [] then [] else ["  " + ValueText(values[0])] + ValueLines(values[1..])
  }

  function MemberText(members: seq<string>): string {
    if members == [] then "" else if |members| == 1 then members[0] else members[0] + " | " + MemberText(members[1..])
  }

  function ItemLines(item: Item): seq<string> {
    match item
    case Description(text) => [QuotedText(text)]
    case TypeItem(kind, name, suffix, parts) =>
      [kind + " " + name + (suffix + " {")] + (PartLines(parts) + ["}"])
    case EnumItem(name, values) => ["enum" + " " + name + " {"] + (ValueLines(values) + ["}"])
    case UnionItem(name, members) => ["union" + " " + name + (" = " + MemberText(members))]
    case OtherItem(line) => [line]
  }

  function DocumentLines(items: seq<Item>): seq<string> {
    if items == [] then [] else ItemLines(items[0]) + DocumentLines(items[1..])
  }

  function JoinLines(lines: seq<string>): string {
    if lines == [] then "" else if |lines| == 1 then lines[0] else lines[0] + "\n" + JoinLines(lines[1..])
  }

  function Print(items: seq<Item>): string { JoinLines(DocumentLines(items)) }

  // ---- what is printed ---------------------------------------------------------------------------

  predicate OneLine(s: string) { '\n' !in s && '\r' !in s }

  predicate IsTail(directives: string) {
    OneLine(directives) && (directives != "" ==> directives[0] in {'@', '#'})
  }

  predicate WellFormedValue(v: EnumValue) {
    Tight(v.name) && OneLine(v.name) && All(v.name, NoSpaceNoAt) && v.name[0] != '}' && IsTail(v.directives)
  }

  predicate WellFormedField(f: FieldItem) {
    && Word(f.name)
    && (f.arguments.Some? ==> OneLine(f.arguments.value) && ')' !in f.arguments.value)
    && Tight(f.base) && OneLine(f.base) && '@' !in f.base && '#' !in f.base && f.base[|f.base| - 1] != '!'
    && IsTail(f.directives)
  }

  predicate WellFormedPart(p: Part) {
    match p
    case Described(text) => OneLine(text)
    case FieldPart(f) => WellFormedField(f)
    case OtherPart(line) =>
      OneLine(line) && !Closes("  " + line) && !Quoted(Trim("  " + line)) && MatchField(Trim("  " + line)) == None
  }

  predicate WellFormedMember(m: string) { Tight(m) && '|' !in m && All(m, IsDot) }

  predicate WellFormed(item: Item) {
    match item
    case Description(text) => OneLine(text)
    case TypeItem(kind, name, suffix, parts) =>
      && kind in {"type", "interface", "input"} && Word(name)
      && OneLine(suffix) && '{' !in suffix && (suffix != "" ==> !IsWord(suffix[0]))
      && forall i :: 0 <= i < |parts| ==> WellFormedPart(parts[i])
    case EnumItem(name, values) => Word(name) && forall i :: 0 <= i < |values| ==> WellFormedValue(values[i])
    case UnionItem(name, members) =>
      Word(name) && members != [] && forall i :: 0 <= i < |members| ==> WellFormedMember(members[i])
    case OtherItem(line) =>
      && OneLine(line) && !Quoted(Trim(line)) && MatchUnion(Trim(line)) == None
      && MatchHead(Trim(line), "enum") == None && MatchType(Trim(line)) == None
  }

  /**
   * The maps a document stands for; a later item of the same kind and name replaces an earlier one. In a
   * body a description is for the next field, whatever stands between them.
   */
  function FieldMap(parts: seq<Part>, described: bool, before: map<string, FieldDef>): map<string, FieldDef> {
    if parts == [] then before
    else
      match parts[0]
      case Described(_) => FieldMap(parts[1..], true, before)
      case FieldPart(f) =>
        FieldMap(parts[1..], false, before[f.name := FieldDef(f.name, f.base, f.required, described)])
      case OtherPart(_) => FieldMap(parts[1..], described, before)
  }

  function ValueNames(values: seq<EnumValue>): set<string> { set v | v in values && IsEnumValue(v.name) :: v.name }

  function Apply(doc: SdlDocument, described: bool, item: Item): SdlDocument {
    match item
    case Description(_) => doc
    case TypeItem(kind, name, suffix, parts) =>
      doc.(types := doc.types[name :=
        TypeDef(name, kind, Contains(suffix, "@key"), described, FieldMap(parts, false, map[]))])
    case EnumItem(name, values) => doc.(enums := doc.enums[name := ValueNames(values)])
    case UnionItem(name, members) => doc.(unions := doc.unions[name := set m | m in members])
    case OtherItem(_) => doc
  }

  /** Outside a body a description is for the next line only, be it a type's or not. */
  function Meaning(items: seq<Item>, described: bool, doc: SdlDocument): SdlDocument {
    if items == [] then doc else Meaning(items[1..], items[0].Description?, Apply(doc, described, items[0]))
  }

  // ---- scanning lemmas -----------------------------------------------------------------------------

  lemma HeadMatches(keyword: string, name: string, rest: string)
    requires Word(name) && (rest != "" ==> !IsWord(rest[0]))
    ensures MatchHead(keyword + " " + name + rest, keyword) == Some(Head(name, |keyword| + 1 + |name|))
  {
    HeadIsRead(keyword + " " + name + rest, keyword, " ", name, rest);
  }

  lemma TypeRefIs(f: FieldItem)
    requires WellFormedField(f)
    ensures Tight(TypeRef(f)) && Bare(TypeRef(f)) == f.base && Required(TypeRef(f)) == f.required
  {
  }

  /** A field line gives back the name and the type, whatever follows an `@` or `#`. */
  lemma FieldMatches(f: FieldItem)
    requires WellFormedField(f)
    ensures MatchField(FieldText(f)) == Some(FieldLine(f.name, TypeRef(f)))
  {
    var pad := if f.directives == "" then "" else " ";
    var body := " " + TypeRef(f) + pad;
    var p := FieldParts(f.name, "", ArgumentText(f), "", body, f.directives);
    PartsOfField(f, p, pad);
    BlankPads(pad);
    TypeRefIs(f);
    hide WellFormedField, FieldText, TypeRef, ArgumentText, Tight, IsFieldLine, LineOf, MatchField, Trim, All;
    FieldLineIsRead(p);
    TrimPadded(" ", TypeRef(f), pad);
  }

  lemma PartsOfField(f: FieldItem, p: FieldParts, pad: string)
    requires WellFormedField(f) && pad == if f.directives == "" then "" else " "
    requires p == FieldParts(f.name, "", ArgumentText(f), "", " " + TypeRef(f) + pad, f.directives)
    ensures IsFieldLine(p) && LineOf(p) == FieldText(f)
  {
    ArgumentsAreWhole(f);
    TypeRefIsClean(f, pad);
    assert Blanks("") && Tail(f.directives) == pad + f.directives;
    hide Tight, TypeRef, ArgumentText, IsArguments, All, Tail, Word, Blanks, OneLine;
    Around(f.name, ArgumentText(f), TypeRef(f), pad, f.directives);
  }

  lemma Around(name: string, arguments: string, typeRef: string, pad: string, directives: string)
    ensures name + "" + arguments + "" + ":" + (" " + typeRef + pad) + directives
         == name + arguments + ": " + typeRef + (pad + directives)
  {
    var front := name + arguments;
    assert name + "" + arguments + "" == front;
    assert front + ":" + (" " + typeRef + pad) == front + ": " + typeRef + pad;
  }

  lemma ArgumentsAreWhole(f: FieldItem)
    requires WellFormedField(f)
    ensures ArgumentText(f) == "" || IsArguments(ArgumentText(f))
  {
    hide Tight;
    if f.arguments.Some? {
      var text := ArgumentText(f);
      assert text[..|text| - 1] == "(" + f.arguments.value;
    }
  }

  lemma TypeRefIsClean(f: FieldItem, pad: string)
    requires WellFormedField(f) && (pad == "" || pad == " ")
    ensures All(" " + TypeRef(f) + pad, NotAtOrHash)
  {
    hide Tight;
    var body := " " + TypeRef(f) + pad;
    forall k | 0 <= k < |body| ensures NotAtOrHash(body[k]) {
      assert 0 < k <= |f.base| ==> body[k] == f.base[k - 1];
    }
  }

  // ---- one item --------------------------------------------------------------------------------------

  lemma QuotedIsTight(d: string)
    ensures Tight(QuotedText(d)) && Quoted(QuotedText(d)) && !Closes(QuotedText(d)) && !Closes("  " + QuotedText(d))
  {
    TrimTight(QuotedText(d));
  }

  /** Trimming takes the blanks off the end of what follows the type, and nothing else. */
  lemma {:induction false} TrimEndKeeps(s: string, tail: string)
    requires tail != "" && !IsSpace(tail[0])
    ensures TrimEnd(s + tail) == s + TrimEnd(tail) && TrimEnd(tail) != "" && TrimEnd(tail) <= tail
  {
    hide IsSpace;
    var n := |tail| - 1;
    if IsSpace(tail[n]) {
      assert (s + tail)[..|s + tail| - 1] == s + tail[..n];
      TrimEndKeeps(s, tail[..n]);
    }
  }

  lemma TrimStartKeeps(s: string)
    requires s != "" && !IsSpace(s[0])
    ensures TrimStart("  " + s) == s
  {
    SkipTo("  " + s, 0, 2, IsSpace);
    assert ("  " + s)[2..] == s;
  }

  lemma TrimTail(s: string, directives: string) returns (kept: string)
    requires Tight(s) && IsTail(directives)
    ensures IsTail(kept) && Trim("  " + (s + Tail(directives))) == s + Tail(kept)
  {
    hide TrimStart, TrimEnd;
    kept := "";
    if directives == "" {
      assert s + "" == s;
      TrimTight(s);
    } else {
      kept := TrimEnd(directives);
      TrimStartKeeps(s + " " + directives);
      TrimEndKeeps(s + " ", directives);
      assert s + (" " + directives) == s + " " + directives;
      assert s + (" " + kept) == s + " " + kept;
    }
  }

  lemma TrimmedField(f: FieldItem) returns (g: FieldItem)
    requires WellFormedField(f)
    ensures WellFormedField(g) && g.name == f.name && TypeRef(g) == TypeRef(f)
    ensures Trim("  " + FieldText(f)) == FieldText(g)
    ensures !Quoted(FieldText(g)) && !Closes("  " + FieldText(f))
  {
    var front := f.name + ArgumentText(f) + ": " + TypeRef(f);
    TypeRefIs(f);
    assert front[0] == f.name[0] && front[|front| - 1] == TypeRef(f)[|TypeRef(f)| - 1] && IsWord(f.name[0]);
    var kept := TrimTail(front, f.directives);
    g := f.(directives := kept);
    assert FieldText(g)[0] == f.name[0];
    hide Trim, Tight;
  }

  lemma {:induction false} PartsParse(parts: seq<Part>, rest: seq<string>, described: bool,
                                      before: map<string, FieldDef>)
    requires forall i :: 0 <= i < |parts| ==> WellFormedPart(parts[i])
    requires rest != [] && Closes(rest[0])
    ensures TypeBody(PartLines(parts) + rest, described, before) == (FieldMap(parts, described, before), rest)
  {
    hide TypeBody, Closes, WellFormedPart, PartText;
    if parts == [] {
      NoParts(rest, described, before);
    } else {
      var p, more := parts[0], PartLines(parts[1..]) + rest;
      assert PartLines(parts) + rest == ["  " + PartText(p)] + more;
      match p {
        case Described(d) =>
          DescriptionParses(d, more, described, before);
          PartsParse(parts[1..], rest, true, before);
        case FieldPart(f) =>
          FieldIsWellFormed(f);
          FieldLineParses(f, more, described, before);
          PartsParse(parts[1..], rest, false, before[f.name := FieldDef(f.name, f.base, f.required, described)]);
        case OtherPart(line) =>
          OtherLineParses(line, more, described, before);
          PartsParse(parts[1..], rest, described, before);
      }
    }
  }

  lemma NoParts(rest: seq<string>, described: bool, before: map<string, FieldDef>)
    requires rest != [] && Closes(rest[0])
    ensures TypeBody(PartLines([]) + rest, described, before) == (FieldMap([], described, before), rest)
  {
    assert PartLines([]) + rest == rest;
  }

  lemma FieldIsWellFormed(f: FieldItem)
    ensures WellFormedPart(FieldPart(f)) <==> WellFormedField(f)
    ensures PartText(FieldPart(f)) == FieldText(f)
  {
  }

  lemma DescriptionParses(d: string, more: seq<string>, described: bool, before: map<string, FieldDef>)
    ensures TypeBody(["  " + PartText(Described(d))] + more, described, before) == TypeBody(more, true, before)
  {
    QuotedIsTight(d);
    TrimsToQuoted(d);
    hide Trim, Tight, Closes, Quoted, QuotedText, TypeBody;
    FieldStep("  " + QuotedText(d), more, described, before);
  }

  lemma OtherLineParses(line: string, more: seq<string>, described: bool, before: map<string, FieldDef>)
    requires WellFormedPart(OtherPart(line))
    ensures TypeBody(["  " + PartText(OtherPart(line))] + more, described, before) == TypeBody(more, described, before)
  {
    hide Trim, Closes, Quoted, MatchField, TypeBody, OneLine;
    FieldStep("  " + line, more, described, before);
  }

  lemma FieldLineParses(f: FieldItem, more: seq<string>, pending: bool, before: map<string, FieldDef>)
    requires WellFormedField(f)
    ensures TypeBody(["  " + FieldText(f)] + more, pending, before)
         == TypeBody(more, false, before[f.name := FieldDef(f.name, f.base, f.required, pending)])
  {
    var g := TrimmedField(f);
    FieldMatches(g);
    TypeRefIs(f);
    hide Trim, Tight, MatchField, FieldText, Closes, Quoted, TypeRef, Bare, Required, TypeBody, WellFormedField;
    FieldStep("  " + FieldText(f), more, pending, before);
  }

  lemma TrimsToQuoted(d: string)
    ensures Trim("  " + QuotedText(d)) == QuotedText(d) && Trim(QuotedText(d)) == QuotedText(d)
  {
    QuotedIsTight(d);
    TrimTight(QuotedText(d));
  }

  /** One unfolding of a type body. */
  lemma FieldStep(line: string, more: seq<string>, pending: bool, before: map<string, FieldDef>)
    requires !Closes(line)
    ensures TypeBody([line] + more, pending, before) ==
            if Quoted(Trim(line)) then TypeBody(more, true, before)
            else match MatchField(Trim(line))
              case None => TypeBody(more, pending, before)
              case Some(f) => TypeBody(more, false, before[f.name :=
                FieldDef(f.name, Bare(f.typeRef), Required(f.typeRef), pending)])
  {
    hide Trim, MatchField, Closes, Quoted, Bare, Required;
    assert ([line] + more)[0] == line && ([line] + more)[1..] == more;
  }

  lemma {:induction false} ValuesParse(values: seq<EnumValue>, rest: seq<string>, before: set<string>)
    requires forall i :: 0 <= i < |values| ==> WellFormedValue(values[i])
    requires rest != [] && Closes(rest[0])
    ensures EnumBody(ValueLines(values) + rest, before) == (before + ValueNames(values), rest)
  {
    hide EnumBody, Closes, ValueText, WellFormedValue, ValueNames, NameOf, ValueLines;
    if values == [] {
      NoValues(rest, before);
    } else {
      ValueLinesSplit(values, rest);
      ValueStep(values[0], ValueLines(values[1..]) + rest, before);
      ValuesParse(values[1..], rest, before + NameOf(values[0]));
      OneMoreName(values, before);
    }
  }

  lemma NoValues(rest: seq<string>, before: set<string>)
    requires rest != [] && Closes(rest[0])
    ensures EnumBody(ValueLines([]) + rest, before) == (before + ValueNames([]), rest)
  {
    assert ValueLines([]) + rest == rest && before + ValueNames([]) == before;
  }

  lemma ValueLinesSplit(values: seq<EnumValue>, rest: seq<string>)
    requires values != []
    ensures ValueLines(values) + rest == ["  " + ValueText(values[0])] + (ValueLines(values[1..]) + rest)
  {
    hide ValueText;
  }

  lemma ValueStep(v: EnumValue, more: seq<string>, before: set<string>)
    requires WellFormedValue(v)
    ensures EnumBody(["  " + ValueText(v)] + more, before) == EnumBody(more, before + NameOf(v))
  {
    ValueIsRead(v);
    hide IsEnumValue, EnumWord, Closes, ValueText;
    assert (["  " + ValueText(v)] + more)[1..] == more && before + {} == before;
  }

  function NameOf(v: EnumValue): set<string> { if IsEnumValue(v.name) then {v.name} else {} }

  lemma OneMoreName(values: seq<EnumValue>, before: set<string>)
    requires values != []
    ensures before + NameOf(values[0]) + ValueNames(values[1..]) == before + ValueNames(values)
  {
    assert values == [values[0]] + values[1..];
  }

  lemma ValueIsRead(v: EnumValue)
    requires WellFormedValue(v)
    ensures !Closes("  " + ValueText(v)) && EnumWord("  " + ValueText(v)) == v.name
  {
    var kept := TrimTail(v.name, v.directives);
    hide Trim, Tight, EnumWord;
    assert Trim("  " + ValueText(v)) == v.name + Tail(kept);
    EnumWordExactly("  " + ValueText(v), v.name);
  }

  lemma BlankPads(pad: string)
    requires pad == "" || pad == " "
    ensures All(pad, IsSpace) && All(" ", IsSpace) && All("", IsSpace)
  {
  }

  /** Each piece between bars is a member with blanks around it. */
  lemma {:induction false} MembersParse(members: seq<string>, pad: string)
    requires members != [] && (forall i :: 0 <= i < |members| ==> WellFormedMember(members[i]))
    requires pad == "" || pad == " "
    ensures Members(pad + MemberText(members)) == set m | m in members
  {
    hide IsSpace, IsDot, All, Trim;
    BlankPads(pad);
    var m, text := members[0], pad + MemberText(members);
    if |members| == 1 {
      assert members == [m] && text == pad + m;
      SkipTo(text, 0, |text|, x => x != '|');
      assert Split(text, '|') == [text];
      TrimPadded(pad, m, "");
      assert pad + m + "" == text;
    } else {
      var tail := members[1..];
      MembersParse(tail, " ");
      var first, second := pad + m + " ", " " + MemberText(tail);
      assert text == first + "|" + second;
      SplitOnce(first, second);
      TrimPadded(pad, m, " ");
      SplitMembers(first, Split(second, '|'));
      assert members == [m] + tail;
    }
  }

  lemma SplitOnce(first: string, second: string)
    requires '|' !in first
    ensures Split(first + "|" + second, '|') == [first] + Split(second, '|')
  {
    var text := first + "|" + second;
    assert text[..|first|] == first && text[|first| + 1..] == second;
    SkipTo(text, 0, |first|, x => x != '|');
  }

  lemma SplitMembers(first: string, rest: seq<string>)
    requires Trim(first) != ""
    ensures (set m | m in [first] + rest && Trim(m) != "" :: Trim(m))
         == {Trim(first)} + (set m | m in rest && Trim(m) != "" :: Trim(m))
  {
    hide Trim;
    assert first in [first] + rest;
  }

  lemma {:induction false} MemberTextIsTight(members: seq<string>)
    requires members != [] && (forall i :: 0 <= i < |members| ==> WellFormedMember(members[i]))
    ensures Tight(MemberText(members)) && All(MemberText(members), IsDot)
  {
    if |members| > 1 {
      MemberTextIsTight(members[1..]);
      var m, tail := members[0], MemberText(members[1..]);
      var text := m + " | " + tail;
      assert text[0] == m[0] && text[|text| - 1] == tail[|tail| - 1];
      hide IsSpace, Tight;
      forall i | 0 <= i < |text| ensures IsDot(text[i]) {
        assert text[i] == if i < |m| then m[i] else if i < |m| + 3 then " | "[i - |m|] else tail[i - |m| - 3];
      }
    }
  }

  // ---- whole documents ---------------------------------------------------------------------------------

  /** One unfolding of the parser. */
  lemma QuotedStep(line: string, rest: seq<string>, described: bool, doc: SdlDocument)
    requires Quoted(Trim(line))
    ensures ParseLines([line] + rest, described, doc) == ParseLines(rest, true, doc)
  {
    hide Trim, Quoted, MatchHead, MatchUnion, MatchType;
    assert ([line] + rest)[0] == line && ([line] + rest)[1..] == rest;
  }

  lemma UnionParses(name: string, members: seq<string>, rest: seq<string>, described: bool, doc: SdlDocument)
    requires WellFormed(UnionItem(name, members))
    ensures ParseLines(ItemLines(UnionItem(name, members)) + rest, described, doc)
         == ParseLines(rest, false, Apply(doc, described, UnionItem(name, members)))
  {
    hide SkipWhile, TrimEnd, Split, MatchHead, MatchUnion, MatchType, Members, MemberText, IsSpace, Word,
         WellFormedMember, ParseLines, All;
    var text := MemberText(members);
    var tail := " = " + text;
    var line := "union" + " " + name + tail;
    MemberTextIsTight(members);
    HeadMatches("union", name, tail);
    UnionLineIsTight(line, text);
    TrimTight(line);
    UnionLineMatches(line, name, text);
    MembersParse(members, "");
    assert "" + text == text;
    assert ItemLines(UnionItem(name, members)) == [line];
    UnionStep(line, name, text, rest, described, doc);
  }

  lemma UnionLineIsTight(line: string, text: string)
    requires Tight(text) && |text| < |line| && line[0] == 'u' && line[|line| - |text|..] == text
    ensures Tight(line) && !Quoted(line)
  {
    assert line[|line| - 1] == text[|text| - 1];
  }

  lemma UnionStep(line: string, name: string, text: string, rest: seq<string>, described: bool, doc: SdlDocument)
    requires Trim(line) == line && !Quoted(line) && MatchUnion(line) == Some(UnionLine(name, text))
    ensures ParseLines([line] + rest, described, doc)
         == ParseLines(rest, false, doc.(unions := doc.unions[name := Members(text)]))
  {
    hide Trim, Quoted, MatchUnion, MatchHead, MatchType, TypeBody, EnumBody, Contains, Members;
    assert ([line] + rest)[0] == line && ([line] + rest)[1..] == rest;
  }

  lemma UnionLineMatches(line: string, name: string, text: string)
    requires line == "union" + " " + name + (" = " + text) && Tight(text) && All(text, IsDot)
    requires MatchHead(line, "union") == Some(Head(name, 6 + |name|))
    ensures MatchUnion(line) == Some(UnionLine(name, text))
  {
    hide MatchHead, TrimEnd;
    var b := 6 + |name|;
    assert line[b..] == " = " + text;
    assert line[b] == ' ' && line[b + 1] == '=' && line[b + 2] == ' ' && line[b + 3..] == text;
    SkipTo(line, b, b + 1, IsBlank);
    assert line[b + 3] == text[0];
    SkipTo(line, b + 2, b + 3, IsBlank);
    forall k | b + 3 <= k < |line| ensures IsDot(line[k]) {
      assert line[k] == text[k - b - 3];
    }
    SkipTo(line, b + 3, |line|, IsDot);
  }

  lemma NoHead(line: string, keyword: string)
    requires line != "" && keyword != "" && line[0] != keyword[0]
    ensures MatchHead(line, keyword) == None
  {
  }

  lemma EnumParses(name: string, values: seq<EnumValue>, rest: seq<string>, described: bool, doc: SdlDocument)
    requires WellFormed(EnumItem(name, values))
    ensures ParseLines(ItemLines(EnumItem(name, values)) + rest, described, doc)
         == ParseLines(rest, false, Apply(doc, described, EnumItem(name, values)))
  {
    hide Trim, Tight, MatchHead, MatchUnion, MatchType, EnumBody, TypeBody, IsEnumValue, Word, Quoted, Closes,
         ValueLines, ParseLines, All;
    var line := "enum" + " " + name + " {";
    var body := ValueLines(values) + (["}"] + rest);
    EnumLineMatches(name);
    TrimTight(line);
    BraceCloses(rest);
    ValuesParse(values, ["}"] + rest, {});
    assert {} + ValueNames(values) == ValueNames(values);
    assert ItemLines(EnumItem(name, values)) == [line] + (ValueLines(values) + ["}"]);
    assert ItemLines(EnumItem(name, values)) + rest == [line] + body;
    EnumStep(line, name, body, described, doc);
  }

  lemma EnumLineMatches(name: string)
    requires Word(name)
    ensures var line := "enum" + " " + name + " {";
      && Tight(line) && !Quoted(line) && MatchUnion(line) == None
         && MatchHead(line, "enum") == Some(Head(name, 5 + |name|))
  {
    hide SkipWhile, Word, MatchHead;
    var line := "enum" + " " + name + " {";
    HeadMatches("enum", name, " {");
    assert line[0] == 'e' && line[|line| - 1] == '{';
    NoHead(line, "union");
  }

  lemma EnumStep(line: string, name: string, body: seq<string>, described: bool, doc: SdlDocument)
    requires Trim(line) == line && !Quoted(line) && MatchUnion(line) == None
    requires MatchHead(line, "enum") == Some(Head(name, 5 + |name|))
    ensures var (values, rest) := EnumBody(body, {});
      ParseLines([line] + body, described, doc)
        == ParseLines(Rest(rest), false, doc.(enums := doc.enums[name := values]))
  {
    hide Trim, Quoted, MatchUnion, MatchHead, MatchType, TypeBody, EnumBody, Contains;
    assert ([line] + body)[0] == line && ([line] + body)[1..] == body;
  }

  lemma {:induction false} KeyIsKept(suffix: string)
    ensures Contains(suffix + " ", "@key") == Contains(suffix, "@key")
  {
    var s := suffix + " ";
    if i :| 0 <= i <= |s| && "@key" <= s[i..] {
      assert s[i + 3] == "@key"[3] && i + 4 <= |suffix|;
      assert suffix[i..][..4] == s[i..][..4];
      assert "@key" <= suffix[i..];
    }
    if i :| 0 <= i <= |suffix| && "@key" <= suffix[i..] {
      assert s[i..] == suffix[i..] + " ";
      assert "@key" <= s[i..];
    }
  }

  lemma BraceLineIsTight(line: string)
    requires line != "" && line[0] in {'t', 'i'} && line[|line| - 1] == '{'
    ensures Tight(line) && !Quoted(line)
  {
  }

  lemma TypeLineMatches(kind: string, name: string, suffix: string)
    requires kind in {"type", "interface", "input"} && Word(name)
    requires OneLine(suffix) && '{' !in suffix && (suffix != "" ==> !IsWord(suffix[0]))
    ensures var line := kind + " " + name + (suffix + " {");
      && Tight(line) && !Quoted(line) && MatchUnion(line) == None && MatchHead(line, "enum") == None
      && MatchType(line) == Some(TypeLine(kind, name, suffix + " "))
  {
    var line := kind + " " + name + (suffix + " {");
    TypeLineIsNoOther(kind, line);
    SuffixIsWhole(suffix);
    hide IsSpace, IsBlank, IsDot, Word, OneLine, MatchHead, MatchUnion, MatchType, Tight, Quoted, All;
    assert Blanks(" ");
    TypeLineIsRead(line, TypeLine(kind, name, suffix + " "), " ", "{");
  }

  lemma SuffixIsWhole(suffix: string)
    requires '{' !in suffix && (suffix != "" ==> !IsWord(suffix[0]))
    ensures suffix + " " + "{" == suffix + " {" && !IsWord((suffix + " {")[0])
    ensures All(suffix + " ", NotOpening) && Blanks(" ")
  {
  }

  lemma TypeLineIsNoOther(kind: string, line: string)
    requires kind in {"type", "interface", "input"} && kind <= line && line[|line| - 1] == '{'
    ensures Tight(line) && !Quoted(line) && MatchUnion(line) == None && MatchHead(line, "enum") == None
  {
    hide SkipWhile, IsSpace, IsBlank, IsDot, Tight, Quoted, MatchHead;
    assert line[0] == kind[0];
    BraceLineIsTight(line);
    NoHead(line, "union");
    NoHead(line, "enum");
  }

  lemma TypeParses(item: Item, rest: seq<string>, described: bool, doc: SdlDocument)
    requires item.TypeItem? && WellFormed(item)
    ensures ParseLines(ItemLines(item) + rest, described, doc) == ParseLines(rest, false, Apply(doc, described, item))
  {
    hide Trim, Tight, MatchType, MatchUnion, MatchHead, TypeBody, EnumBody, PartLines, Contains, Quoted, FieldMap,
         Word, OneLine, ParseLines, Closes, WellFormedPart, All;
    var TypeItem(kind, name, suffix, parts) := item;
    var line := kind + " " + name + (suffix + " {");
    TypeLineMatches(kind, name, suffix);
    TrimTight(line);
    BraceCloses(rest);
    PartsParse(parts, ["}"] + rest, false, map[]);
    KeyIsKept(suffix);
    TypeStep(line, PartLines(parts) + (["}"] + rest), described, doc, TypeLine(kind, name, suffix + " "));
    Regroup([line], PartLines(parts), ["}"], rest);
  }

  lemma BraceCloses(rest: seq<string>)
    ensures Closes("}") && (["}"] + rest)[0] == "}" && (["}"] + rest)[1..] == rest
  {
    TrimTight("}");
  }

  lemma Regroup(a: seq<string>, b: seq<string>, c: seq<string>, d: seq<string>)
    ensures a + (b + c) + d == a + (b + (c + d))
  {
    assert (b + c) + d == b + (c + d);
  }

  lemma TypeStep(line: string, body: seq<string>, pending: bool, doc: SdlDocument, t: TypeLine)
    requires Trim(line) == line && !Quoted(line) && MatchUnion(line) == None && MatchHead(line, "enum") == None
    requires MatchType(line) == Some(t)
    ensures var (fields, rest) := TypeBody(body, false, map[]);
      ParseLines([line] + body, pending, doc)
        == ParseLines(Rest(rest), false, doc.(types :=
             doc.types[t.name := TypeDef(t.name, t.kind, Contains(t.suffix, "@key"), pending, fields)]))
  {
    hide Trim, Quoted, MatchUnion, MatchHead, MatchType, TypeBody, EnumBody, Contains;
    assert ([line] + body)[0] == line && ([line] + body)[1..] == body;
  }

  lemma OtherParses(line: string, rest: seq<string>, described: bool, doc: SdlDocument)
    requires WellFormed(OtherItem(line))
    ensures ParseLines([line] + rest, described, doc) == ParseLines(rest, false, doc)
  {
    hide Trim, Quoted, MatchUnion, MatchHead, MatchType, TypeBody, EnumBody, OneLine;
    assert ([line] + rest)[0] == line && ([line] + rest)[1..] == rest;
  }

  lemma ItemParses(item: Item, rest: seq<string>, described: bool, doc: SdlDocument)
    requires WellFormed(item)
    ensures ParseLines(ItemLines(item) + rest, described, doc)
         == ParseLines(rest, item.Description?, Apply(doc, described, item))
  {
    match item {
      case Description(text) =>
        TrimsToQuoted(text);
        QuotedIsTight(text);
        QuotedStep(QuotedText(text), rest, described, doc);
      case TypeItem(_, _, _, _) => TypeParses(item, rest, described, doc);
      case EnumItem(name, values) => EnumParses(name, values, rest, described, doc);
      case UnionItem(name, members) => UnionParses(name, members, rest, described, doc);
      case OtherItem(line) => OtherParses(line, rest, described, doc);
    }
  }

  lemma {:induction false} DocumentParses(items: seq<Item>, described: bool, doc: SdlDocument)
    requires forall i :: 0 <= i < |items| ==> WellFormed(items[i])
    ensures ParseLines(DocumentLines(items), described, doc) == Meaning(items, described, doc)
  {
    hide WellFormed, ItemLines, Apply;
    if items == [] {
      NoLines(described, doc);
    } else {
      hide ParseLines;
      ItemParses(items[0], DocumentLines(items[1..]), described, doc);
      DocumentParses(items[1..], items[0].Description?, Apply(doc, described, items[0]));
    }
  }

  lemma NoLines(described: bool, doc: SdlDocument)
    ensures ParseLines([], described, doc) == doc
  {
  }

  // ---- the text ----------------------------------------------------------------------------------------

  predicate OneLineEach(lines: seq<string>) { forall i :: 0 <= i < |lines| ==> OneLine(lines[i]) }

  lemma {:induction false} LinesUndoJoining(lines: seq<string>)
    requires lines != [] && OneLineEach(lines)
    ensures Lines(JoinLines(lines)) == lines
  {
    hide Lines, OneLine;
    OneMoreLine(lines[0], JoinLines(lines[1..]));
    if |lines| > 1 {
      LinesUndoJoining(lines[1..]);
    }
  }

  lemma OneMoreLine(first: string, rest: string)
    requires OneLine(first)
    ensures Lines(first) == [first] && Lines(first + "\n" + rest) == [first] + Lines(rest)
  {
    var text := first + "\n" + rest;
    SkipTo(first, 0, |first|, c => c != '\n' && c != '\r');
    assert text[..|first|] == first && text[|first|] == '\n' && text[|first| + 1..] == rest;
    assert forall k :: 0 <= k < |first| ==> text[k] == first[k];
    SkipTo(text, 0, |first|, c => c != '\n' && c != '\r');
  }

  lemma PartIsALine(p: Part)
    requires WellFormedPart(p)
    ensures OneLine("  " + PartText(p))
  {
    match p {
      case Described(text) => OneLineQuoted(text);
      case FieldPart(f) => FieldIsALine(f);
      case OtherPart(line) =>
    }
    hide WellFormedPart, FieldText, QuotedText;
    assert OneLine("  ");
    OneLineJoins("  ", PartText(p));
  }

  lemma FieldIsALine(f: FieldItem)
    requires WellFormedField(f)
    ensures OneLine(FieldText(f))
  {
    WordsAreOneLine(f.name);
    assert OneLine(ArgumentText(f)) && OneLine(": ") && OneLine(TypeRef(f)) && OneLine(Tail(f.directives));
    hide OneLine, Word, Tight, ArgumentText, TypeRef, Tail;
    OneLineJoins(f.name, ArgumentText(f));
    OneLineJoins(f.name + ArgumentText(f), ": ");
    OneLineJoins(f.name + ArgumentText(f) + ": ", TypeRef(f));
    OneLineJoins(f.name + ArgumentText(f) + ": " + TypeRef(f), Tail(f.directives));
  }

  lemma {:induction false} PartLinesAreLines(parts: seq<Part>)
    requires forall i :: 0 <= i < |parts| ==> WellFormedPart(parts[i])
    ensures OneLineEach(PartLines(parts))
  {
    hide WellFormedPart, PartText, OneLine;
    if parts != [] {
      PartIsALine(parts[0]);
      PartLinesAreLines(parts[1..]);
    }
  }

  lemma {:induction false} ValueLinesAreLines(values: seq<EnumValue>)
    requires forall i :: 0 <= i < |values| ==> WellFormedValue(values[i])
    ensures OneLineEach(ValueLines(values))
  {
    if values != [] {
      assert OneLine(values[0].name);
      ValueLinesAreLines(values[1..]);
    }
  }

  lemma WordsAreOneLine(s: string)
    requires Word(s)
    ensures OneLine(s)
  {
    assert forall i :: 0 <= i < |s| ==> IsWord(s[i]);
  }

  lemma DottedIsOneLine(s: string)
    requires All(s, IsDot)
    ensures OneLine(s)
  {
    assert forall i :: 0 <= i < |s| ==> IsDot(s[i]);
  }

  lemma OneLineJoins(a: string, b: string)
    requires OneLine(a) && OneLine(b)
    ensures OneLine(a + b)
  {
  }

  lemma HeadLineIsOneLine(keyword: string, name: string, tail: string)
    requires OneLine(keyword) && Word(name) && OneLine(tail)
    ensures OneLine(keyword + " " + name + tail)
  {
    WordsAreOneLine(name);
    OneLineJoins(keyword, " ");
    OneLineJoins(keyword + " ", name);
    OneLineJoins(keyword + " " + name, tail);
  }

  lemma LinesJoin(a: seq<string>, b: seq<string>)
    requires OneLineEach(a) && OneLineEach(b)
    ensures OneLineEach(a + b)
  {
    hide OneLine;
  }

  lemma BlockIsLines(head: string, body: seq<string>)
    requires OneLine(head) && OneLineEach(body)
    ensures OneLineEach([head]) && OneLineEach([head] + (body + ["}"]))
  {
    assert OneLine("}");
    LinesJoin(body, ["}"]);
    LinesJoin([head], body + ["}"]);
  }

  lemma Literals()
    ensures OneLine("enum") && OneLine("union") && OneLine(" {") && OneLine(" = ")
    ensures OneLine("type") && OneLine("interface") && OneLine("input")
  {
  }

  /** A keyword, a name and whatever opens the body, and then the body and its brace. */
  lemma BlockOf(keyword: string, name: string, tail: string, body: seq<string>)
    requires OneLine(keyword) && Word(name) && OneLine(tail) && OneLineEach(body)
    ensures OneLineEach([keyword + " " + name + tail] + (body + ["}"]))
  {
    hide OneLine, OneLineEach, Word;
    HeadLineIsOneLine(keyword, name, tail);
    BlockIsLines(keyword + " " + name + tail, body);
  }

  lemma UnionIsALine(name: string, members: seq<string>)
    requires Word(name) && members != [] && forall i :: 0 <= i < |members| ==> WellFormedMember(members[i])
    ensures OneLine(" = " + MemberText(members))
  {
    Literals();
    hide OneLine, WellFormedMember, Word, Tight, All;
    MemberTextIsTight(members);
    DottedIsOneLine(MemberText(members));
    OneLineJoins(" = ", MemberText(members));
  }

  lemma ItemLinesAreLines(item: Item)
    requires WellFormed(item)
    ensures OneLineEach(ItemLines(item))
  {
    match item {
      case Description(text) => OneLineQuoted(text);
      case OtherItem(line) =>
      case TypeItem(kind, name, suffix, parts) =>
        Literals();
        PartLinesAreLines(parts);
        hide OneLine, OneLineEach, Word, WellFormedPart;
        OneLineJoins(suffix, " {");
        BlockOf(kind, name, suffix + " {", PartLines(parts));
      case EnumItem(name, values) =>
        Literals();
        ValueLinesAreLines(values);
        hide OneLine, OneLineEach, Word, WellFormedValue;
        BlockOf("enum", name, " {", ValueLines(values));
      case UnionItem(name, members) =>
        Literals();
        UnionIsALine(name, members);
        hide OneLine, Word, WellFormedMember;
        HeadLineIsOneLine("union", name, " = " + MemberText(members));
    }
  }

  lemma OneLineQuoted(text: string)
    requires OneLine(text)
    ensures OneLine(QuotedText(text))
  {
  }

  lemma {:induction false} DocumentLinesAreLines(items: seq<Item>)
    requires forall i :: 0 <= i < |items| ==> WellFormed(items[i])
    ensures OneLineEach(DocumentLines(items))
  {
    hide WellFormed, ItemLines;
    if items != [] {
      ItemLinesAreLines(items[0]);
      DocumentLinesAreLines(items[1..]);
    }
  }

  /**
   * The parser undoes the printer: the same maps, key flags, required flags and description flags,
   * whatever directives and comments follow the fields and values.
   */
  lemma ParsingUndoesPrinting(items: seq<Item>)
    requires forall i :: 0 <= i < |items| ==> WellFormed(items[i])
    ensures ParseLines(Lines(Print(items)), false, NOTHING) == Meaning(items, false, NOTHING)
  {
    hide WellFormed, Meaning;
    DocumentParses(items, false, NOTHING);
    if DocumentLines(items) == [] {
      NothingToParse();
    } else {
      DocumentLinesAreLines(items);
      LinesUndoJoining(DocumentLines(items));
    }
  }

  lemma NothingToParse()
    ensures ParseLines(Lines(""), false, NOTHING) == ParseLines([], false, NOTHING)
  {
    assert Lines("") == [""];
    assert Trim("") == "";
    NoHead2("union");
    NoHead2("enum");
    NoHead2("input");
    assert [""][1..] == [];
  }

  lemma NoHead2(keyword: string)
    requires keyword != ""
    ensures MatchHead("", keyword) == None
  {
  }
}
