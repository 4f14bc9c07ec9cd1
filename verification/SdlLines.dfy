/** What the SDL parser's line patterns match, told by the parts of a line (SdlModel.kt). */
module SdlLines {
  import opened Common
  import opened Sdl

  predicate Word(s: string) { s != "" && All(s, IsWord) }

  /** Not empty, and neither starting nor ending with a space. */
  predicate Tight(s: string) { s != "" && !IsSpace(s[0]) && !IsSpace(s[|s| - 1]) }

  predicate Blanks(s: string) { All(s, IsBlank) }

  lemma {:induction false} SkipTo(s: string, i: nat, j: nat, p: char -> bool)
    requires i <= j <= |s| && (forall k :: i <= k < j ==> p(s[k])) && (j < |s| ==> !p(s[j]))
    ensures SkipWhile(s, i, p) == j
    decreases j - i
  {
    if i < j {
      SkipTo(s, i + 1, j, p);
    }
  }

  lemma {:induction false} SkippedAll(s: string, i: nat, p: char -> bool)
    requires i <= |s|
    ensures var j := SkipWhile(s, i, p); (forall k :: i <= k < j ==> p(s[k])) && (j < |s| ==> !p(s[j]))
    decreases |s| - i
  {
    if i < |s| && p(s[i]) {
      SkippedAll(s, i + 1, p);
    }
  }

  /** The text starts at `i` with a run of such characters, and then comes another or the end. */
  predicate Run(line: string, i: nat, run: string, p: char -> bool) {
    && i + |run| <= |line| && line[i..i + |run|] == run && All(run, p)
    && (i + |run| < |line| ==> !p(line[i + |run|]))
  }

  lemma RunsAreSkipped(line: string, i: nat, run: string, p: char -> bool)
    requires i <= |line|
    ensures Run(line, i, run, p) <==> run == line[i..SkipWhile(line, i, p)]
  {
    SkippedAll(line, i, p);
    if Run(line, i, run, p) {
      assert forall k :: i <= k < i + |run| ==> line[k] == run[k - i];
      SkipTo(line, i, i + |run|, p);
    }
  }

  lemma RunThen(before: string, run: string, rest: string, p: char -> bool)
    requires All(run, p) && (rest != "" ==> !p(rest[0]))
    ensures var line := before + run + rest; SkipWhile(line, |before|, p) == |before + run|
  {
    var line := before + run + rest;
    assert line[|before|..|before| + |run|] == run;
    assert rest != "" ==> line[|before| + |run|] == rest[0];
    RunsAreSkipped(line, |before|, run, p);
  }

  lemma {:induction false} TrimEndPadded(s: string, pad: string)
    requires Tight(s) && All(pad, IsSpace)
    ensures TrimEnd(s + pad) == s
  {
    hide IsSpace;
    if pad == "" {
      assert s + pad == s;
    } else {
      var n := |pad| - 1;
      assert (s + pad)[..|s + pad| - 1] == s + pad[..n];
      TrimEndPadded(s, pad[..n]);
    }
  }

  lemma TrimPadded(before: string, s: string, after: string)
    requires Tight(s) && All(before, IsSpace) && All(after, IsSpace)
    ensures Trim(before + s + after) == s
  {
    var all := before + s + after;
    SkipTo(all, 0, |before|, IsSpace);
    assert all[|before|..] == s + after;
    TrimEndPadded(s, after);
  }

  lemma TrimTight(s: string)
    requires Tight(s)
    ensures Trim(s) == s && Trim("  " + s) == s
  {
    TrimPadded("", s, "");
    assert "" + s + "" == s;
    TrimPadded("  ", s, "");
    assert "  " + s + "" == "  " + s;
  }

  // ---- field lines -----------------------------------------------------------------------------------

  /** The parts of a field line; `arguments` has its parentheses with it. */
  datatype FieldParts = FieldParts(name: string, gap: string, arguments: string, space: string, body: string,
                                   tail: string)

  predicate NotAtOrHash(c: char) { c != '@' && c != '#' }

  predicate NotClosing(c: char) { c != ')' }

  predicate IsArguments(a: string) {
    |a| >= 2 && a[0] == '(' && a[|a| - 1] == ')' && All(a[..|a| - 1], NotClosing)
  }

  function LineOf(p: FieldParts): string { p.name + p.gap + p.arguments + p.space + ":" + p.body + p.tail }

  /** A name, blanks, perhaps arguments, blanks, a colon, a type, and whatever starts with `@` or `#`, if anything. */
  predicate IsFieldLine(p: FieldParts) {
    && Word(p.name) && Blanks(p.gap) && (p.arguments == "" || IsArguments(p.arguments)) && Blanks(p.space)
    && p.body != "" && All(p.body, NotAtOrHash) && (p.tail != "" ==> !NotAtOrHash(p.tail[0]))
  }

  /** Where the colon stands. */
  function Colon(p: FieldParts): nat { |p.name + p.gap + p.arguments + p.space| }

  lemma NoBlanks()
    ensures !IsBlank(':') && !IsBlank('(')
  {
  }

  lemma ColonIsFound(p: FieldParts)
    requires IsFieldLine(p) && p.arguments == ""
    ensures var line := LineOf(p);
      && Colon(p) < |line| && line[Colon(p)] == ':'
      && SkipWhile(line, |p.name|, IsBlank) == SkipWhile(line, Colon(p), IsBlank) == Colon(p)
  {
    NoBlanks();
    hide IsWord, SkipWhile, IsBlank, NotAtOrHash;
    var line, n, g, s := LineOf(p), p.name, p.gap, p.space;
    var rest := ":" + p.body + p.tail;
    assert n + g + "" == n + g;
    BlankRuns(g, s);
    RunThen(n, g + s, rest, IsBlank);
    RunThen(n + g + s, "", rest, IsBlank);
    assert line == n + (g + s) + rest == n + g + s + "" + rest;
  }

  lemma ArgumentsAreSkipped(p: FieldParts)
    requires IsFieldLine(p) && p.arguments != ""
    ensures var (line, open, close) := (LineOf(p), |p.name + p.gap|, |p.name + p.gap + p.arguments| - 1);
      && SkipWhile(line, |p.name|, IsBlank) == open < |line| && line[open] == '('
      && SkipWhile(line, open, c => c != ')') == close < |line|
  {
    NoBlanks();
    hide IsWord, SkipWhile, IsBlank, NotAtOrHash;
    var line, n, g, a := LineOf(p), p.name, p.gap, p.arguments;
    var rest := p.space + ":" + p.body + p.tail;
    var inner := a[..|a| - 1];
    assert a == inner + ")" && inner[0] == '(';
    RunThen(n, g, a + rest, IsBlank);
    assert line == n + g + (a + rest);
    RunThen(n + g, inner, ")" + rest, c => c != ')');
    assert a + rest == inner + (")" + rest);
    assert line == n + g + inner + (")" + rest);
  }

  lemma ColonAfterArguments(p: FieldParts)
    requires IsFieldLine(p) && p.arguments != ""
    ensures var line := LineOf(p);
      && Colon(p) < |line| && line[Colon(p)] == ':'
      && SkipWhile(line, |p.name + p.gap + p.arguments|, IsBlank) == Colon(p)
  {
    NoBlanks();
    hide IsWord, SkipWhile, IsBlank, NotAtOrHash, IsArguments;
    var before, rest := p.name + p.gap + p.arguments, ":" + p.body + p.tail;
    RunThen(before, p.space, rest, IsBlank);
    assert LineOf(p) == before + p.space + rest;
  }

  lemma AfterName(p: FieldParts)
    requires IsFieldLine(p)
    ensures SkipWhile(LineOf(p), 0, IsWord) == |p.name|
  {
    var after := p.gap + p.arguments + p.space + ":" + p.body + p.tail;
    assert !IsWord(after[0]) by {
      assert after[0] == if p.gap != "" then p.gap[0] else if p.arguments != "" then '(' else
        if p.space != "" then p.space[0] else ':';
    }
    RunThen("", p.name, after, IsWord);
    assert LineOf(p) == "" + p.name + after;
  }

  lemma BlankRuns(a: string, b: string)
    requires Blanks(a) && Blanks(b)
    ensures Blanks(a + b)
  {
  }

  lemma FieldLineIsRead(p: FieldParts)
    requires IsFieldLine(p)
    ensures MatchField(LineOf(p)) == Some(FieldLine(p.name, Trim(p.body)))
  {
    hide SkipWhile, Trim, IsBlank, IsWord;
    var line, u := LineOf(p), Colon(p);
    AfterName(p);
    if p.arguments == "" {
      ColonIsFound(p);
    } else {
      ArgumentsAreSkipped(p);
      ColonAfterArguments(p);
    }
    var before := p.name + p.gap + p.arguments + p.space + ":";
    RunThen(before, p.body, p.tail, c => c != '@' && c != '#');
    assert line == before + p.body + p.tail && |before| == u + 1;
    assert line[u + 1..u + 1 + |p.body|] == p.body && line[..|p.name|] == p.name;
    hide LineOf, Colon;
  }

  lemma Cut(line: string, w: nat, open: nat, q: nat, u: nat, e: nat)
    requires w <= open <= q <= u < e <= |line| && line[u] == ':'
    ensures line[..w] + line[w..open] + line[open..q] + line[q..u] + ":" + line[u + 1..e] + line[e..] == line
  {
    assert line[..w] + line[w..open] == line[..open];
    assert line[..open] + line[open..q] == line[..q];
    assert line[..q] + line[q..u] == line[..u];
    assert line[..u] + ":" == line[..u + 1];
    assert line[..u + 1] + line[u + 1..e] == line[..e];
  }

  lemma ArgumentsAreCut(line: string, open: nat, close: nat)
    requires open < close < |line| && line[open] == '(' && close == SkipWhile(line, open, c => c != ')')
    ensures IsArguments(line[open..close + 1])
  {
    SkippedAll(line, open, c => c != ')');
    var a := line[open..close + 1];
    assert forall k :: 0 <= k < |a| ==> a[k] == line[open + k];
  }

  lemma Slice(line: string, i: nat, p: char -> bool)
    requires i <= |line|
    ensures var j := SkipWhile(line, i, p); All(line[i..j], p) && (line[j..] != "" ==> !p(line[j..][0]))
  {
    SkippedAll(line, i, p);
  }

  lemma CutPoints(line: string) returns (w: nat, open: nat, q: nat, u: nat, e: nat)
    requires MatchField(line).Some?
    ensures 0 < w <= open <= q <= u && u + 1 < e <= |line| && line[u] == ':'
    ensures w == SkipWhile(line, 0, IsWord) && open == SkipWhile(line, w, IsBlank) && u == SkipWhile(line, q, IsBlank)
    ensures q == open || IsArguments(line[open..q])
    ensures e == SkipWhile(line, u + 1, c => c != '@' && c != '#')
  {
    hide Trim, IsWord, IsBlank, SkipWhile, IsArguments;
    w := SkipWhile(line, 0, IsWord);
    open := SkipWhile(line, w, IsBlank);
    var close := if open < |line| && line[open] == '(' then SkipWhile(line, open, c => c != ')') else |line|;
    q := if close < |line| then close + 1 else open;
    u := SkipWhile(line, q, IsBlank);
    e := SkipWhile(line, u + 1, c => c != '@' && c != '#');
    if q != open {
      OpeningIsNotClosing(line, open);
      ArgumentsAreCut(line, open, close);
    }
  }

  lemma FieldLineHasParts(line: string) returns (p: FieldParts)
    requires MatchField(line).Some?
    ensures IsFieldLine(p) && LineOf(p) == line
  {
    var w, open, q, u, e := CutPoints(line);
    hide MatchField, IsWord, IsBlank, SkipWhile, All, NotAtOrHash, IsArguments;
    Slice(line, 0, IsWord);
    Slice(line, w, IsBlank);
    Slice(line, q, IsBlank);
    TypeIsCut(line, u + 1, e);
    p := FieldParts(line[..w], line[w..open], line[open..q], line[q..u], line[u + 1..e], line[e..]);
    assert IsFieldLine(p);
    hide IsFieldLine;
    Cut(line, w, open, q, u, e);
  }

  lemma OpeningIsNotClosing(line: string, open: nat)
    requires open < |line| && line[open] == '('
    ensures SkipWhile(line, open, c => c != ')') > open
  {
  }

  lemma TypeIsCut(line: string, i: nat, e: nat)
    requires i <= |line| && e == SkipWhile(line, i, c => c != '@' && c != '#')
    ensures All(line[i..e], NotAtOrHash) && (line[e..] != "" ==> !NotAtOrHash(line[e..][0]))
  {
    Slice(line, i, c => c != '@' && c != '#');
  }

  /**
   * The field pattern is matched by exactly the lines of this form, and yields the name and the
   * trimmed type; what follows an `@` or `#` makes no difference.
   */
  lemma FieldLinesExactly(line: string, f: FieldLine)
    ensures MatchField(line) == Some(f)
       <==> exists p :: IsFieldLine(p) && LineOf(p) == line && f == FieldLine(p.name, Trim(p.body))
  {
    hide MatchField, IsFieldLine, LineOf, Trim;
    if p :| IsFieldLine(p) && LineOf(p) == line && f == FieldLine(p.name, Trim(p.body)) {
      FieldLineIsRead(p);
    }
    if MatchField(line) == Some(f) {
      var p := FieldLineHasParts(line);
      FieldLineIsRead(p);
    }
  }

  lemma TailAppended(p: FieldParts, tail: string)
    requires p.tail == ""
    ensures LineOf(p) + tail == LineOf(p.(tail := tail))
  {
    var line := p.name + p.gap + p.arguments + p.space + ":" + p.body;
    assert line + "" == line;
  }

  /** Directives and comments after the type make no difference. */
  lemma TailsMakeNoDifference(p: FieldParts, tail: string)
    requires IsFieldLine(p) && p.tail == "" && tail != "" && tail[0] in {'@', '#'}
    ensures MatchField(LineOf(p) + tail) == MatchField(LineOf(p)) == Some(FieldLine(p.name, Trim(p.body)))
  {
    assert IsFieldLine(p.(tail := tail));
    hide MatchField, Trim, LineOf, IsFieldLine;
    FieldLineIsRead(p);
    FieldLineIsRead(p.(tail := tail));
    TailAppended(p, tail);
  }

  /** The repository's own form. */
  lemma ExternalIdIsRead()
    ensures MatchField("id: ID! " + "@external") == Some(FieldLine("id", "ID!"))
  {
    var p := FieldParts("id", "", "", "", " ID! ", "");
    hide MatchField, Trim, SkipWhile;
    assert LineOf(p) == "id: ID! ";
    TrimmedId();
    TailsMakeNoDifference(p, "@external");
  }

  lemma TrimmedId()
    ensures Trim(" ID! ") == "ID!"
  {
    hide Trim;
    TrimPadded(" ", "ID!", " ");
    assert " " + "ID!" + " " == " ID! ";
  }

  // ---- enum values and heads -------------------------------------------------------------------------

  predicate NoSpaceNoAt(c: char) { c != ' ' && c != '@' }

  /** An enum line is read up to its first space or `@`. */
  lemma EnumWordExactly(line: string, v: string)
    ensures EnumWord(line) == v <==>
      exists rest :: Trim(line) == v + rest && All(v, NoSpaceNoAt) && (rest != "" ==> !NoSpaceNoAt(rest[0]))
  {
    hide Trim, SkipWhile;
    var t := Trim(line);
    var i := SkipWhile(t, 0, c => c != ' ');
    SkippedAll(t, 0, c => c != ' ');
    var w := t[..i];
    var j := SkipWhile(w, 0, c => c != '@');
    SkippedAll(w, 0, c => c != '@');
    assert t == w[..j] + t[j..];
    assert All(w[..j], NoSpaceNoAt) && (t[j..] != "" ==> !NoSpaceNoAt(t[j..][0]));
    if rest :| t == v + rest && All(v, NoSpaceNoAt) && (rest != "" ==> !NoSpaceNoAt(rest[0])) {
      assert forall k :: 0 <= k < |v| ==> t[k] == v[k];
      assert rest != "" ==> t[|v|] == rest[0];
      assert |v| == j;
    }
  }

  /** A keyword, blanks, and a name that is followed by no word character. */
  predicate IsHead(line: string, keyword: string, gap: string, name: string, rest: string) {
    && line == keyword + gap + name + rest && gap != "" && Blanks(gap) && Word(name)
    && (rest != "" ==> !IsWord(rest[0]))
  }

  lemma HeadIsRead(line: string, keyword: string, gap: string, name: string, rest: string)
    requires IsHead(line, keyword, gap, name, rest)
    ensures MatchHead(line, keyword) == Some(Head(name, |keyword + gap + name|))
  {
    assert !IsBlank((name + rest)[0]) by {
      assert (name + rest)[0] == name[0] && IsWord(name[0]);
    }
    hide SkipWhile, IsBlank, IsWord;
    RunThen(keyword, gap, name + rest, IsBlank);
    RunThen(keyword + gap, name, rest, IsWord);
    assert line == keyword + gap + (name + rest);
    assert line[|keyword + gap|..|keyword + gap + name|] == name && keyword <= line;
  }

  lemma HeadHasParts(line: string, keyword: string, h: Head) returns (gap: string, rest: string)
    requires MatchHead(line, keyword) == Some(h)
    ensures IsHead(line, keyword, gap, h.name, rest) && h.after == |keyword + gap + h.name|
    ensures rest == line[h.after..]
  {
    hide SkipWhile, IsWord, IsBlank;
    var a := SkipWhile(line, |keyword|, IsBlank);
    Slice(line, |keyword|, IsBlank);
    Slice(line, a, IsWord);
    gap, rest := line[|keyword|..a], line[h.after..];
    assert line == keyword + gap + h.name + rest;
  }

  lemma HeadsExactly(line: string, keyword: string, h: Head)
    ensures MatchHead(line, keyword) == Some(h) <==>
      exists gap, rest :: IsHead(line, keyword, gap, h.name, rest) && h.after == |keyword + gap + h.name|
  {
    hide MatchHead, IsHead;
    if gap, rest :| IsHead(line, keyword, gap, h.name, rest) && h.after == |keyword + gap + h.name| {
      HeadIsRead(line, keyword, gap, h.name, rest);
    }
    if MatchHead(line, keyword) == Some(h) {
      var gap, rest := HeadHasParts(line, keyword, h);
    }
  }

  // ---- type and union lines -----------------------------------------------------------------------------

  predicate IsKind(kind: string) { kind in {"type", "interface", "input"} }

  predicate IsTypeLine(line: string, t: TypeLine, gap: string, rest: string) {
    && IsKind(t.kind) && IsHead(line, t.kind, gap, t.name, t.suffix + rest)
    && All(t.suffix, NotOpening) && (rest != "" ==> !NotOpening(rest[0]))
  }

  predicate NotOpening(c: char) { c != '{' }

  lemma KindIsRead(line: string, kind: string)
    requires IsKind(kind) && kind <= line
    ensures kind == if "type" <= line then "type" else if "interface" <= line then "interface" else "input"
  {
    assert line[..|kind|] == kind;
    assert line[1] == kind[1] && line[2] == kind[2];
  }

  lemma HeadStarts(line: string, keyword: string, gap: string, name: string, rest: string)
    requires IsHead(line, keyword, gap, name, rest)
    ensures keyword <= line && line == keyword + gap + name + rest
  {
  }

  lemma TypeLineIsRead(line: string, t: TypeLine, gap: string, rest: string)
    requires IsTypeLine(line, t, gap, rest)
    ensures MatchType(line) == Some(t)
  {
    hide SkipWhile, MatchHead, IsHead, Blanks, Word;
    HeadStarts(line, t.kind, gap, t.name, t.suffix + rest);
    KindIsRead(line, t.kind);
    HeadIsRead(line, t.kind, gap, t.name, t.suffix + rest);
    hide IsKind;
    var before := t.kind + gap + t.name;
    RunThen(before, t.suffix, rest, c => c != '{');
    assert line == before + t.suffix + rest;
    assert line[|before|..|before + t.suffix|] == t.suffix;
  }

  lemma TypeLineHasParts(line: string, t: TypeLine) returns (gap: string, rest: string)
    requires MatchType(line) == Some(t)
    ensures IsTypeLine(line, t, gap, rest)
  {
    hide SkipWhile, MatchHead, IsHead, All;
    var h := MatchHead(line, t.kind).value;
    var after;
    gap, after := HeadHasParts(line, t.kind, h);
    Slice(line, h.after, c => c != '{');
    var e := SkipWhile(line, h.after, c => c != '{');
    rest := line[e..];
    assert t.suffix + rest == after;
    SuffixIsCut(line, h.after, e);
  }

  lemma SuffixIsCut(line: string, i: nat, e: nat)
    requires i <= |line| && e == SkipWhile(line, i, c => c != '{')
    ensures All(line[i..e], NotOpening) && (line[e..] != "" ==> !NotOpening(line[e..][0]))
  {
    Slice(line, i, c => c != '{');
  }

  /** A kind, a name, whatever stands before the first brace, and that brace with all that follows, if there is one. */
  lemma TypeLinesExactly(line: string, t: TypeLine)
    ensures MatchType(line) == Some(t) <==> exists gap, rest :: IsTypeLine(line, t, gap, rest)
  {
    hide MatchType, IsTypeLine;
    if gap, rest :| IsTypeLine(line, t, gap, rest) {
      TypeLineIsRead(line, t, gap, rest);
    }
    if MatchType(line) == Some(t) {
      var gap, rest := TypeLineHasParts(line, t);
    }
  }

  predicate IsUnionLine(line: string, u: UnionLine, gap: string, before: string, after: string) {
    && IsHead(line, "union", gap, u.name, before + "=" + after + u.members) && Blanks(before) && Blanks(after)
    && u.members != "" && !IsBlank(u.members[0]) && All(u.members, IsDot)
  }

  lemma UnionLineIsRead(line: string, u: UnionLine, gap: string, before: string, after: string)
    requires IsUnionLine(line, u, gap, before, after)
    ensures MatchUnion(line) == Some(u)
  {
    hide SkipWhile, MatchHead, IsHead, IsBlank, IsDot;
    var rest := before + "=" + after + u.members;
    HeadIsRead(line, "union", gap, u.name, rest);
    HeadStarts(line, "union", gap, u.name, rest);
    var head := "union" + gap + u.name;
    UnionRuns(line, head, before, after, u.members);
    hide Blanks, All;
    assert line[|head + before + "=" + after|..] == u.members;
  }

  lemma UnionRuns(line: string, head: string, before: string, after: string, members: string)
    requires line == head + (before + "=" + after + members) && Blanks(before) && Blanks(after)
    requires members != "" && !IsBlank(members[0]) && All(members, IsDot)
    ensures var (c, d) := (|head + before|, |head + before + "=" + after|);
      && SkipWhile(line, |head|, IsBlank) == c && line[c] == '=' && SkipWhile(line, c + 1, IsBlank) == d < |line|
      && SkipWhile(line, d, IsDot) == |line|
  {
    assert !IsBlank('=');
    hide SkipWhile, IsBlank, IsDot;
    var rest := "=" + after + members;
    RunThen(head, before, rest, IsBlank);
    assert line == head + before + rest;
    var head2 := head + before + "=";
    RunThen(head2, after, members, IsBlank);
    assert line == head2 + after + members;
    RunThen(head2 + after, members, "", IsDot);
    assert line == head2 + after + members + "";
  }

  lemma UnionIsCut(line: string, i: nat, c: nat, d: nat)
    requires i <= c < d <= |line| && line[c] == '='
    ensures line[i..] == line[i..c] + "=" + line[c + 1..d] + line[d..]
  {
  }

  lemma UnionLineHasParts(line: string, u: UnionLine) returns (gap: string, before: string, after: string)
    requires MatchUnion(line) == Some(u)
    ensures IsUnionLine(line, u, gap, before, after)
  {
    hide SkipWhile, MatchHead, IsHead, IsBlank, IsDot, All;
    var h := MatchHead(line, "union").value;
    var rest;
    gap, rest := HeadHasParts(line, "union", h);
    var c := SkipWhile(line, h.after, IsBlank);
    var d := SkipWhile(line, c + 1, IsBlank);
    Slice(line, h.after, IsBlank);
    Slice(line, c + 1, IsBlank);
    Slice(line, d, IsDot);
    before, after := line[h.after..c], line[c + 1..d];
    UnionIsCut(line, h.after, c, d);
    assert line[d..|line|] == line[d..];
  }

  /** A name, an equals sign and the members, on one line. */
  lemma UnionLinesExactly(line: string, u: UnionLine)
    ensures MatchUnion(line) == Some(u) <==> exists gap, before, after :: IsUnionLine(line, u, gap, before, after)
  {
    hide MatchUnion, IsUnionLine;
    if gap, before, after :| IsUnionLine(line, u, gap, before, after) {
      UnionLineIsRead(line, u, gap, before, after);
    }
    if MatchUnion(line) == Some(u) {
      var gap, before, after := UnionLineHasParts(line, u);
    }
  }

  // ---- union members -------------------------------------------------------------------------------------

  /** What stands between two bars, or between a bar and an end, or is the whole text. */
  predicate IsPiece(text: string, i: int, j: int) {
    && 0 <= i <= j <= |text| && All(text[i..j], NoBar)
    && (i == 0 || text[i - 1] == '|') && (j == |text| || text[j] == '|')
  }

  predicate NoBar(c: char) { c != '|' }

  ghost predicate StandsBetweenBars(text: string, piece: string) {
    exists i, j :: IsPiece(text, i, j) && text[i..j] == piece
  }

  lemma {:induction false} PiecesAreSplit(text: string, piece: string)
    ensures piece in Split(text, '|') <==> StandsBetweenBars(text, piece)
    decreases |text|
  {
    var k := SkipWhile(text, 0, x => x != '|');
    SkippedAll(text, 0, x => x != '|');
    hide SkipWhile;
    assert IsPiece(text, 0, k);
    if k == |text| {
      OnlyPiece(text, piece);
    } else {
      PiecesAreSplit(text[k + 1..], piece);
      hide Split, StandsBetweenBars;
      MorePieces(text, k, piece);
    }
  }

  lemma OnlyPiece(text: string, piece: string)
    requires IsPiece(text, 0, |text|)
    ensures StandsBetweenBars(text, piece) <==> piece == text
  {
    assert text[0..|text|] == text;
    assert forall x :: 0 <= x < |text| ==> text[x] != '|';
  }

  lemma MorePieces(text: string, k: nat, piece: string)
    requires IsPiece(text, 0, k) && k < |text|
    ensures StandsBetweenBars(text, piece) <==> piece == text[..k] || StandsBetweenBars(text[k + 1..], piece)
  {
    var rest := text[k + 1..];
    assert forall x :: 0 <= x < k ==> text[x] == text[0..k][x];
    if i, j :| IsPiece(rest, i, j) && rest[i..j] == piece {
      assert text[i + k + 1..j + k + 1] == rest[i..j];
      assert IsPiece(text, i + k + 1, j + k + 1);
    }
    if i, j :| IsPiece(text, i, j) && text[i..j] == piece {
      assert forall x :: i <= x < j ==> text[x] == text[i..j][x - i];
      if i > k {
        assert rest[i - k - 1..j - k - 1] == text[i..j];
        assert IsPiece(rest, i - k - 1, j - k - 1);
      }
    }
    assert piece == text[..k] ==> text[0..k] == piece;
  }

  /** The members are what stands between the bars, trimmed; a blank piece, as before a leading bar, is none. */
  lemma MembersExactly(text: string, m: string)
    ensures m in Members(text) <==> m != "" && exists i, j :: IsPiece(text, i, j) && Trim(text[i..j]) == m
  {
    hide Split, Trim, All;
    if m in Members(text) {
      var piece :| piece in Split(text, '|') && Trim(piece) == m;
      PiecesAreSplit(text, piece);
      var i, j :| IsPiece(text, i, j) && text[i..j] == piece;
    }
    if i, j :| IsPiece(text, i, j) && Trim(text[i..j]) == m {
      PiecesAreSplit(text, text[i..j]);
    }
  }
}
