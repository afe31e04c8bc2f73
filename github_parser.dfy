/**
 * The issue-template parser of src/services/github_service.py: a GitHub issue body made of
 * `### label` sections becomes a field map, and the field map becomes a `Profile`.
 */
module GitHubParser {
  import opened Wrappers
  import opened Text
  import opened Profiles

  // ---------------------------------------------------------------------------
  // Labels and categories
  // ---------------------------------------------------------------------------

  /** `JOB_CATEGORY_MAP`: the category choices of the issue template. */
  const JobCategoryMap: map<string, JobCategory> := map[
    "데이터 분석" := Data,
    "백엔드 개발" := Backend,
    "프론트엔드 개발" := Frontend,
    "풀스택 개발" := Fullstack,
    "기획/PM" := PM,
    "디자인" := Design]

  /** The template's section labels and the field key each one fills. */
  const KnownLabels: map<string, string> := map[
    "GitHub 사용자명" := "github_username",
    "희망 직무" := "job_category",
    "경력 (년)" := "experience_years",
    "보유 기술" := "skills",
    "자격증 (선택)" := "certifications",
    "희망 근무지" := "preferred_location",
    "이메일 (뉴스레터용, 선택)" := "email",
    "간단한 자기소개 (선택)" := "introduction"]

  /**
   * `_label_to_key`: a template label gives its fixed key; any other label is lower-cased
   * with every space turned into `_`, character by character.
   */
  function LabelToKey(heading: string): (k: string)
    ensures heading in KnownLabels ==> k == KnownLabels[heading]
    ensures heading !in KnownLabels ==>
              |k| == |heading| &&
              forall i :: 0 <= i < |heading| ==> k[i] == if heading[i] == ' ' then '_' else LowerChar(heading[i])
  {
    if heading in KnownLabels then KnownLabels[heading] else ReplaceChar(Lower(heading), ' ', "_")
  }

  /** The key of a label outside the template has no space and no ASCII capital. */
  lemma UnknownLabelKey(heading: string)
    requires heading !in KnownLabels
    ensures ' ' !in LabelToKey(heading)
    ensures forall i :: 0 <= i < |LabelToKey(heading)| ==> !('A' <= LabelToKey(heading)[i] <= 'Z')
  {
    var k := LabelToKey(heading);
    forall i | 0 <= i < |k|
      ensures k[i] != ' ' && !('A' <= k[i] <= 'Z')
    {
    }
  }

  // ---------------------------------------------------------------------------
  // List fields
  // ---------------------------------------------------------------------------

  predicate DashOrSpace(c: char) {
    c == '-' || c == ' '
  }

  /** `line.strip().lstrip("- ")`. */
  function CleanLine(line: string): string {
    TrimLeft(Strip(line), DashOrSpace)
  }

  function CleanLines(lines: seq<string>): (r: seq<string>)
    ensures |r| == |lines| && forall k :: 0 <= k < |lines| ==> r[k] == CleanLine(lines[k])
  {
    MapSeq(CleanLine, lines)
  }

  /** Every character of a cleaned line comes from the line. */
  lemma CleanLineChars(line: string)
    ensures forall c :: c in CleanLine(line) ==> c in line
  {
    StripChars(line);
    var t := Strip(line);
    assert CleanLine(line) == t[|t| - |CleanLine(line)|..];
  }

  /** `_parse_multiline`: nothing for an empty text, otherwise the non-empty cleaned lines in order. */
  function ParseMultiline(text: string): seq<string> {
    if text == "" then [] else NonEmpty(CleanLines(Split(text, '\n')))
  }

  /**
   * The multi-line parser gives nothing for an empty text and at most one item per line
   * otherwise; no item is empty, starts with `-` or a space, or spans two lines.
   */
  lemma ParseMultilineShape(text: string)
    ensures text == "" ==> ParseMultiline(text) == []
    ensures |ParseMultiline(text)| <= CountChar(text, '\n') + 1
    ensures forall k :: 0 <= k < |ParseMultiline(text)| ==>
              var x := ParseMultiline(text)[k];
              x != "" && x[0] != '-' && x[0] != ' ' && '\n' !in x
  {
    if text != "" {
      var lines := Split(text, '\n');
      var cleaned := CleanLines(lines);
      forall k | 0 <= k < |lines|
        ensures '\n' !in cleaned[k] && (cleaned[k] != "" ==> !DashOrSpace(cleaned[k][0]))
      {
        CleanLineChars(lines[k]);
      }
      var r := NonEmpty(cleaned);
      forall k | 0 <= k < |r|
        ensures r[k][0] != '-' && r[k][0] != ' ' && '\n' !in r[k]
      {
        assert r[k] in cleaned;
      }
    }
  }

  /** The empty-text guard gives the same answer as cleaning and filtering the one empty line. */
  lemma ParseMultilineItems(text: string)
    ensures ParseMultiline(text) == NonEmpty(CleanLines(Split(text, '\n')))
  {
    if text == "" {
      assert Split(text, '\n') == [""];
      assert CleanLines([""]) == [CleanLine("")];
      NonEmptySingle(CleanLine(""));
    }
  }

  /** Cleaning works line by line. */
  lemma CleanLinesAppend(xs: seq<string>, ys: seq<string>)
    ensures CleanLines(xs + ys) == CleanLines(xs) + CleanLines(ys)
  {
    MapSeqAppend(CleanLine, xs, ys);
  }

  /**
   * Lines are read one by one and in order: the items of two texts put on separate lines
   * are the items of the first followed by the items of the second.
   */
  lemma ParseMultilineAppend(a: string, b: string)
    ensures ParseMultiline(a + "\n" + b) == ParseMultiline(a) + ParseMultiline(b)
  {
    var la, lb := Split(a, '\n'), Split(b, '\n');
    ParseMultilineItems(a + "\n" + b);
    ParseMultilineItems(a);
    ParseMultilineItems(b);
    SplitAppend(a, b, '\n');
    CleanLinesAppend(la, lb);
    NonEmptyAppend(CleanLines(la), CleanLines(lb));
  }

  /** A single line gives one item, its cleaned form, unless cleaning leaves nothing. */
  lemma ParseMultilineLine(line: string)
    requires '\n' !in line
    ensures CleanLine(line) == "" ==> ParseMultiline(line) == []
    ensures CleanLine(line) != "" ==> ParseMultiline(line) == [CleanLine(line)]
  {
    ParseMultilineItems(line);
    assert Split(line, '\n') == [line];
    assert CleanLines([line]) == [CleanLine(line)];
    NonEmptySingle(CleanLine(line));
  }

  /** An item the multi-line parser keeps as it is. */
  predicate CleanItem(x: string) {
    x != "" && '\n' !in x && !IsSpace(x[0]) && !IsSpace(x[|x| - 1]) && x[0] != '-'
  }

  /** Items written one per line are read back unchanged. */
  lemma ParseMultilineJoin(items: seq<string>)
    requires forall k :: 0 <= k < |items| ==> CleanItem(items[k])
    ensures ParseMultiline(Join(items, "\n")) == items
  {
    if items != [] {
      JoinHead(items, "\n");
      CleanItemsSplit(items);
      CleanLinesNoop(items);
      NonEmptyNoop(items);
    }
  }

  /** Splitting clean items joined by newlines gives the items back. */
  lemma CleanItemsSplit(items: seq<string>)
    requires items != [] && forall k :: 0 <= k < |items| ==> CleanItem(items[k])
    ensures Split(Join(items, "\n"), '\n') == items
  {
    SplitJoin(items, '\n');
  }

  /** Cleaning leaves clean items as they are. */
  lemma CleanLinesNoop(items: seq<string>)
    requires forall k :: 0 <= k < |items| ==> CleanItem(items[k])
    ensures CleanLines(items) == items
  {
    forall k | 0 <= k < |items|
      ensures CleanLine(items[k]) == items[k]
    {
      StripNoSpace(items[k]);
      TrimLeftNoop(items[k], DashOrSpace);
    }
  }

  /** The join of a list starts with its first element. */
  lemma JoinHead(parts: seq<string>, sep: string)
    requires parts != []
    ensures |parts[0]| <= |Join(parts, sep)| && Join(parts, sep)[..|parts[0]|] == parts[0]
  {
    if |parts| > 1 {
      assert Join(parts, sep) == parts[0] + (sep + Join(parts[1..], sep));
    }
  }

  function StripAll(xs: seq<string>): (r: seq<string>)
    ensures |r| == |xs| && forall k :: 0 <= k < |xs| ==> r[k] == Strip(xs[k])
  {
    MapSeq(Strip, xs)
  }

  /** `_parse_comma_separated`: nothing for an empty text, otherwise the non-empty stripped pieces in order. */
  function ParseCommaSeparated(text: string): seq<string> {
    if text == "" then [] else NonEmpty(StripAll(Split(text, ',')))
  }

  /**
   * The comma parser gives nothing for an empty text and at most one item more than there
   * are commas otherwise; every item is non-empty, free of commas and already stripped.
   */
  lemma ParseCommaSeparatedShape(text: string)
    ensures text == "" ==> ParseCommaSeparated(text) == []
    ensures |ParseCommaSeparated(text)| <= CountChar(text, ',') + 1
    ensures forall k :: 0 <= k < |ParseCommaSeparated(text)| ==>
              var x := ParseCommaSeparated(text)[k];
              x != "" && ',' !in x && Strip(x) == x
  {
    if text != "" {
      var pieces := Split(text, ',');
      var stripped := StripAll(pieces);
      forall k | 0 <= k < |pieces|
        ensures ',' !in stripped[k]
      {
        StripChars(pieces[k]);
      }
      var r := NonEmpty(stripped);
      forall k | 0 <= k < |r|
        ensures ',' !in r[k] && Strip(r[k]) == r[k]
      {
        assert r[k] in stripped;
        StripNoSpace(r[k]);
      }
    }
  }

  /** An item the comma parser keeps as it is. */
  predicate CommaItem(x: string) {
    x != "" && ',' !in x && !IsSpace(x[0]) && !IsSpace(x[|x| - 1])
  }

  /** The parts of `Join(items, ", ")` between its commas: each item after the first keeps the space. */
  function SpacedPieces(items: seq<string>): (r: seq<string>)
    requires items != []
    ensures |r| == |items| && r[0] == items[0]
    ensures forall k :: 1 <= k < |items| ==> r[k] == " " + items[k]
  {
    [items[0]] + seq(|items| - 1, k requires 0 <= k < |items| - 1 => " " + items[k + 1])
  }

  /** Joining with `", "` is joining the spaced pieces with `","`. */
  lemma {:induction false} JoinSpaced(items: seq<string>)
    requires items != []
    ensures Join(items, ", ") == Join(SpacedPieces(items), [','])
  {
    if |items| > 1 {
      JoinSpaced(items[1..]);
      JoinSpacedStep(items);
    }
  }

  /** The spaced pieces of `items` are its first item, a comma and then the spaced pieces of the rest. */
  lemma JoinSpacedStep(items: seq<string>)
    requires |items| > 1
    ensures Join(SpacedPieces(items), [',']) == items[0] + ", " + Join(SpacedPieces(items[1..]), [','])
  {
    var q := SpacedPieces(items[1..]);
    SpacedPiecesCons(items);
    JoinCons(items[1], q[1..]);
    assert Join(SpacedPieces(items), [',']) == items[0] + [','] + Join([" " + items[1]] + q[1..], [',']);
  }

  /** The spaced pieces of `items` start with its first item and go on with those of the rest, spaced. */
  lemma SpacedPiecesCons(items: seq<string>)
    requires |items| > 1
    ensures var q := SpacedPieces(items[1..]);
            q == [items[1]] + q[1..] && SpacedPieces(items) == [items[0]] + ([" " + items[1]] + q[1..])
  {
    var p := SpacedPieces(items);
    var q := SpacedPieces(items[1..]);
    var tail := [" " + items[1]] + q[1..];
    assert q == [items[1]] + q[1..];
    assert |p| == 1 + |tail|;
    forall k | 1 <= k < |p|
      ensures p[k] == tail[k - 1]
    {
      if k > 1 {
        assert tail[k - 1] == q[k - 1] == " " + items[1..][k - 1];
      }
    }
    assert p == [items[0]] + tail;
  }

  /** Putting a space before the first part of a comma join puts it before the whole join. */
  lemma JoinCons(x: string, rest: seq<string>)
    ensures Join([" " + x] + rest, [',']) == " " + Join([x] + rest, [','])
  {
    if rest != [] {
      assert ([" " + x] + rest)[1..] == rest;
      assert ([x] + rest)[1..] == rest;
    }
  }

  /** The empty-text guard gives the same answer as stripping and filtering the one empty piece. */
  lemma ParseCommaSeparatedItems(text: string)
    ensures ParseCommaSeparated(text) == NonEmpty(StripAll(Split(text, ',')))
  {
    if text == "" {
      assert Split(text, ',') == [""];
      assert |Strip("")| == 0;
      assert StripAll([""]) == [""];
      NonEmptySingle("");
    }
  }

  /** Stripping works piece by piece. */
  lemma StripAllAppend(xs: seq<string>, ys: seq<string>)
    ensures StripAll(xs + ys) == StripAll(xs) + StripAll(ys)
  {
    MapSeqAppend(Strip, xs, ys);
  }

  /**
   * Pieces are read one by one and in order: the items of two texts joined by a comma are
   * the items of the first followed by the items of the second.
   */
  lemma ParseCommaSeparatedAppend(a: string, b: string)
    ensures ParseCommaSeparated(a + "," + b) == ParseCommaSeparated(a) + ParseCommaSeparated(b)
  {
    var pa, pb := Split(a, ','), Split(b, ',');
    ParseCommaSeparatedItems(a + "," + b);
    ParseCommaSeparatedItems(a);
    ParseCommaSeparatedItems(b);
    SplitAppend(a, b, ',');
    StripAllAppend(pa, pb);
    NonEmptyAppend(StripAll(pa), StripAll(pb));
  }

  /** A single piece gives one item, its stripped form, unless stripping leaves nothing. */
  lemma ParseCommaSeparatedPiece(piece: string)
    requires ',' !in piece
    ensures Strip(piece) == "" ==> ParseCommaSeparated(piece) == []
    ensures Strip(piece) != "" ==> ParseCommaSeparated(piece) == [Strip(piece)]
  {
    ParseCommaSeparatedItems(piece);
    assert Split(piece, ',') == [piece];
    assert StripAll([piece]) == [Strip(piece)];
    NonEmptySingle(Strip(piece));
  }

  /** Items written as `"a, b, c"` are read back unchanged. */
  lemma ParseCommaSeparatedJoin(items: seq<string>)
    requires forall k :: 0 <= k < |items| ==> CommaItem(items[k])
    ensures ParseCommaSeparated(Join(items, ", ")) == items
  {
    if items != [] {
      var text := Join(items, ", ");
      JoinHead(items, ", ");
      assert text != "";
      CommaPieces(items);
      NonEmptyNoop(items);
    }
  }

  /** Splitting `Join(items, ", ")` at its commas and stripping each piece gives the items. */
  lemma CommaPieces(items: seq<string>)
    requires items != []
    requires forall k :: 0 <= k < |items| ==> CommaItem(items[k])
    ensures StripAll(Split(Join(items, ", "), ',')) == items
  {
    var pieces := SpacedPieces(items);
    JoinSpaced(items);
    SpacedPiecesNoComma(items);
    SplitJoin(pieces, ',');
    StripPieces(items);
  }

  /** Items without commas give spaced pieces without commas. */
  lemma SpacedPiecesNoComma(items: seq<string>)
    requires items != []
    requires forall k :: 0 <= k < |items| ==> ',' !in items[k]
    ensures forall k :: 0 <= k < |items| ==> ',' !in SpacedPieces(items)[k]
  {
    var pieces := SpacedPieces(items);
    forall k | 1 <= k < |items|
      ensures ',' !in pieces[k]
    {
      assert pieces[k] == [' '] + items[k];
    }
  }

  /** Stripping the spaced pieces gives the items back. */
  lemma StripPieces(items: seq<string>)
    requires items != []
    requires forall k :: 0 <= k < |items| ==> CommaItem(items[k])
    ensures StripAll(SpacedPieces(items)) == items
  {
    var pieces := SpacedPieces(items);
    forall k | 0 <= k < |items|
      ensures Strip(pieces[k]) == items[k]
    {
      StripNoSpace(items[k]);
      if k > 0 {
        StripLeadingSpace(items[k]);
      }
    }
  }

  // ---------------------------------------------------------------------------
  // Sections of the issue body
  // ---------------------------------------------------------------------------

  /**
   * A match of `### (.+?)\n\n(.*?)(?=\n### |\Z)` (dot matching newlines) at the start of
   * `s`: the label runs to the first blank line after its first character, the value to the
   * next `"\n### "` or the end. The last component is where the match ends.
   */
  function SectionAt(s: string): (r: Option<(string, string, nat)>)
    ensures r.Some? ==> 0 < r.value.2 <= |s|
  {
    if !OccursAt(s, "### ", 0) then None
    else
      match FindFrom(s, "\n\n", 5)
      case None => None
      case Some(l) =>
        var q := l + 2;
        var e := match FindFrom(s, "\n### ", q) case Some(j) => j case None => |s|;
        Some((s[4..l], s[q..e], e))
  }

  /** `re.findall` of the section pattern: try each position, and after a match go on from its end. */
  function Sections(s: string): seq<(string, string)>
    decreases |s|
  {
    if s == [] then []
    else
      match SectionAt(s)
      case None => Sections(s[1..])
      case Some((heading, value, e)) => [(heading, value)] + Sections(s[e..])
  }

  /** A section as the template writes it. */
  function Block(section: (string, string)): string {
    "### " + section.0 + "\n\n" + section.1
  }

  /** Sections one after another, separated by a newline. */
  function Render(sections: seq<(string, string)>): string {
    if sections == [] then ""
    else if |sections| == 1 then Block(sections[0])
    else Block(sections[0]) + "\n" + Render(sections[1..])
  }

  /** A section that reads back as written: a one-line label and a value with no section header inside. */
  predicate WellFormed(section: (string, string)) {
    section.0 != "" && '\n' !in section.0 && !Contains(section.1, "\n### ")
  }

  /** A rendered issue body parses back into its sections. */
  lemma {:induction false} SectionsRender(sections: seq<(string, string)>)
    requires forall k :: 0 <= k < |sections| ==> WellFormed(sections[k])
    ensures Sections(Render(sections)) == sections
  {
    if sections != [] {
      SectionsRenderStep(sections);
      if |sections| > 1 {
        SectionsRender(sections[1..]);
      }
      HeadSplit(sections);
    }
  }

  /** Parsing a rendered body yields its first section, then the sections of the rest. */
  lemma SectionsRenderStep(sections: seq<(string, string)>)
    requires sections != [] && WellFormed(sections[0])
    ensures |sections| == 1 ==> Sections(Render(sections)) == [sections[0]]
    ensures |sections| > 1 ==> Sections(Render(sections)) == [sections[0]] + Sections(Render(sections[1..]))
  {
    var s := Render(sections);
    var block := Block(sections[0]);
    if |sections| == 1 {
      DropPrefix(block, "");
      ConcatFacts(block, [], []);
      BlockMatch(sections[0], "", false);
      SectionsStep(s, sections[0], |block|);
    } else {
      var tail := "\n" + Render(sections[1..]);
      ConcatFacts(block, "\n", Render(sections[1..]));
      RenderStartsWithHeader(sections[1..]);
      NewlineHeader(Render(sections[1..]));
      BlockMatch(sections[0], tail, true);
      DropPrefix(block, tail);
      SectionsStep(s, sections[0], |block|);
      SectionsSkipNewline(tail);
      DropPrefix("\n", Render(sections[1..]));
    }
  }

  /** A newline before a header starts a new section header. */
  lemma NewlineHeader(r: string)
    requires |r| >= 4 && r[..4] == "### "
    ensures |"\n" + r| >= 5 && ("\n" + r)[..5] == "\n### "
  {
    assert ("\n" + r)[..5] == "\n" + r[..4];
  }

  /** A rendered body starts with a section header. */
  lemma RenderStartsWithHeader(sections: seq<(string, string)>)
    requires sections != []
    ensures |Render(sections)| >= 4 && Render(sections)[..4] == "### "
  {
    var b := Block(sections[0]);
    if |sections| > 1 {
      assert Render(sections) == b + ("\n" + Render(sections[1..]));
    }
    assert b[..4] == "### ";
  }

  /** A match at the start of `s` contributes its section and the search goes on from its end. */
  lemma SectionsStep(s: string, section: (string, string), e: nat)
    requires SectionAt(s) == Some((section.0, section.1, e))
    ensures Sections(s) == [section] + Sections(s[e..])
  {
  }

  /** The search moves past a newline. */
  lemma SectionsSkipNewline(t: string)
    requires t != [] && t[0] == '\n'
    ensures Sections(t) == Sections(t[1..])
  {
    assert !OccursAt(t, "### ", 0) by {
      if |t| >= 4 {
        assert t[..4][0] == '\n';
      }
    }
  }

  /** A rendered section followed by nothing or by a newline and a header is matched whole. */
  lemma BlockMatch(section: (string, string), tail: string, more: bool)
    requires WellFormed(section)
    requires more ==> |tail| >= 5 && tail[..5] == "\n### "
    requires !more ==> tail == ""
    ensures SectionAt(Block(section) + tail) == Some((section.0, section.1, |Block(section)|))
  {
    var (heading, value) := section;
    var s := Block(section) + tail;
    var l := 4 + |heading|;
    var q := l + 2;
    var e := q + |value|;
    BlockLabelEnd(section, tail);
    PieceSlices("### ", heading, "\n\n", value, tail);
    ValueEnd(value, tail, s, q, more);
  }

  /** In a rendered section the header comes first and the label ends at the first blank line. */
  lemma BlockLabelEnd(section: (string, string), tail: string)
    requires WellFormed(section)
    ensures OccursAt(Block(section) + tail, "### ", 0)
    ensures FindFrom(Block(section) + tail, "\n\n", 5) == Some(4 + |section.0|)
  {
    var heading := section.0;
    var s := Block(section) + tail;
    var l := 4 + |heading|;
    assert s[..4] == "### ";
    assert s[l..l + 2] == "\n\n";
    forall k | 5 <= k < l
      ensures !OccursAt(s, "\n\n", k)
    {
      assert s[k] == heading[k - 4];
    }
    FindFromAt(s, "\n\n", 5, l);
  }

  /** A value with no header inside runs to the header that follows it, or to the end. */
  lemma ValueEnd(value: string, tail: string, s: string, q: nat, more: bool)
    requires !Contains(value, "\n### ")
    requires q + |value| <= |s| && s[q..q + |value|] == value && s[q + |value|..] == tail
    requires more ==> |tail| >= 5 && tail[..5] == "\n### "
    requires !more ==> tail == ""
    ensures more ==> FindFrom(s, "\n### ", q) == Some(q + |value|)
    ensures !more ==> FindFrom(s, "\n### ", q).None?
  {
    var e := q + |value|;
    if more {
      forall k | q <= k < e
        ensures !OccursAt(s, "\n### ", k)
      {
        NoHeaderAt(value, tail, s, q, k);
      }
      assert s[e..e + 5] == tail[..5];
      FindFromAt(s, "\n### ", q, e);
    } else {
      forall k | q <= k
        ensures !OccursAt(s, "\n### ", k)
      {
        if k < e {
          NoHeaderAt(value, tail, s, q, k);
        }
      }
      FindFromNone(s, "\n### ", q);
    }
  }

  /** No header starts inside a value that contains none, when what follows starts with a newline or is empty. */
  lemma NoHeaderAt(value: string, tail: string, s: string, q: nat, k: nat)
    requires !Contains(value, "\n### ")
    requires q + |value| <= |s| && s[q..q + |value|] == value && s[q + |value|..] == tail
    requires tail != [] ==> tail[0] == '\n'
    requires q <= k < q + |value|
    ensures !OccursAt(s, "\n### ", k)
  {
    var e := q + |value|;
    if k + 5 <= e {
      assert !OccursAt(value, "\n### ", k - q);
      forall m | k - q <= m < k - q + 5
        ensures value[m] == s[q + m]
      {
        assert s[q..q + |value|][m] == s[q + m];
      }
      assert value[k - q..k - q + 5] == s[k..k + 5];
    } else if k + 5 <= |s| {
      assert s[e] == tail[0];
      assert s[k..k + 5][e - k] == s[e];
    }
  }

  // ---------------------------------------------------------------------------
  // The field map
  // ---------------------------------------------------------------------------

  /** The key a section fills. */
  function SectionKey(section: (string, string)): string {
    LabelToKey(Strip(section.0))
  }

  /** The map after storing each entry's value under its key, in order: later entries overwrite. */
  function Assign(entries: seq<(string, string)>): map<string, string>
    decreases |entries|
  {
    if entries == [] then map[]
    else
      var n := |entries| - 1;
      Assign(entries[..n])[entries[n].0 := entries[n].1]
  }

  /** A key is present exactly when some entry has it. */
  lemma {:induction false} AssignDomain(entries: seq<(string, string)>, key: string)
    ensures key in Assign(entries) <==> exists i :: 0 <= i < |entries| && entries[i].0 == key
    decreases |entries|
  {
    if entries != [] {
      var n := |entries| - 1;
      var prefix := entries[..n];
      AssignDomain(prefix, key);
      if key in Assign(prefix) {
        var i :| 0 <= i < n && prefix[i].0 == key;
        assert entries[i] == prefix[i];
      }
      if exists i :: 0 <= i < |entries| && entries[i].0 == key {
        var i :| 0 <= i < |entries| && entries[i].0 == key;
        if i < n {
          assert prefix[i] == entries[i];
        }
      }
    }
  }

  /** A key holds the value of the last entry that has it. */
  lemma {:induction false} AssignLastWins(entries: seq<(string, string)>, i: nat)
    requires i < |entries|
    requires forall j :: i < j < |entries| ==> entries[j].0 != entries[i].0
    ensures entries[i].0 in Assign(entries) && Assign(entries)[entries[i].0] == entries[i].1
    decreases |entries|
  {
    var n := |entries| - 1;
    if i < n {
      var prefix := entries[..n];
      assert prefix[i] == entries[i];
      forall j | i < j < n
        ensures prefix[j].0 != prefix[i].0
      {
        assert prefix[j] == entries[j];
      }
      AssignLastWins(prefix, i);
    }
  }

  /** Each section as the key it fills and its stripped value. */
  function Entries(sections: seq<(string, string)>): (r: seq<(string, string)>)
    ensures |r| == |sections|
    ensures forall i :: 0 <= i < |sections| ==> r[i].0 == SectionKey(sections[i]) && r[i].1 == Strip(sections[i].1)
  {
    seq(|sections|, i requires 0 <= i < |sections| => (SectionKey(sections[i]), Strip(sections[i].1)))
  }

  /** The field map of a body's sections. */
  function Fields(sections: seq<(string, string)>): map<string, string> {
    Assign(Entries(sections))
  }

  /** A field comes from some section that fills its key. */
  lemma FieldHasSection(sections: seq<(string, string)>, key: string) returns (i: nat)
    requires key in Fields(sections)
    ensures i < |sections| && SectionKey(sections[i]) == key
  {
    var entries := Entries(sections);
    AssignDomain(entries, key);
    i :| 0 <= i < |entries| && entries[i].0 == key;
  }

  /** Every section's key is a field. */
  lemma SectionHasField(sections: seq<(string, string)>, i: nat)
    requires i < |sections|
    ensures SectionKey(sections[i]) in Fields(sections)
  {
    var entries := Entries(sections);
    assert entries[i].0 == SectionKey(sections[i]);
    AssignDomain(entries, SectionKey(sections[i]));
  }

  /** A field is present exactly when some section fills its key. */
  lemma FieldsDomain(sections: seq<(string, string)>, key: string)
    ensures key in Fields(sections) <==> exists i :: 0 <= i < |sections| && SectionKey(sections[i]) == key
  {
    if key in Fields(sections) {
      var i := FieldHasSection(sections, key);
    }
    if exists i :: 0 <= i < |sections| && SectionKey(sections[i]) == key {
      var i :| 0 <= i < |sections| && SectionKey(sections[i]) == key;
      SectionHasField(sections, i);
    }
  }

  /** A field holds the stripped value of the last section that fills its key. */
  lemma FieldsLastWins(sections: seq<(string, string)>, i: nat)
    requires i < |sections|
    requires forall j :: i < j < |sections| ==> SectionKey(sections[j]) != SectionKey(sections[i])
    ensures SectionKey(sections[i]) in Fields(sections)
    ensures Fields(sections)[SectionKey(sections[i])] == Strip(sections[i].1)
  {
    var entries := Entries(sections);
    forall j | i < j < |entries|
      ensures entries[j].0 != entries[i].0
    {
    }
    AssignLastWins(entries, i);
  }

  /** `_parse_issue_body`: the sections of the body, each stored under its key in order. */
  method ParseIssueBody(body: string) returns (result: map<string, string>)
    ensures result == Fields(Sections(body))
  {
    result := map[];
    var matches := Sections(body);
    ghost var entries := Entries(matches);
    for i := 0 to |matches|
      invariant result == Assign(entries[..i])
    {
      AssignPrefixStep(entries, i);
      var (heading, value) := matches[i];
      var key := LabelToKey(Strip(heading));
      assert entries[i] == (key, Strip(value));
      result := result[key := Strip(value)];
    }
    assert entries[..|matches|] == entries;
  }

  /** One more entry of the prefix stores its value under its key. */
  lemma AssignPrefixStep(entries: seq<(string, string)>, i: nat)
    requires i < |entries|
    ensures Assign(entries[..i + 1]) == Assign(entries[..i])[entries[i].0 := entries[i].1]
  {
    assert entries[..i + 1][..i] == entries[..i];
  }

  // ---------------------------------------------------------------------------
  // The profile
  // ---------------------------------------------------------------------------

  /** The `body` entry of an issue: missing, JSON `null`, or a text. */
  datatype Body = Missing | Null | Text(text: string)

  /** The issue fields the parser reads; a `None` stands for a missing dictionary entry. */
  datatype Issue = Issue(body: Body, number: Option<int>, htmlUrl: Option<string>, createdAt: Option<string>)

  /** `data.get(key, "")`. */
  function Get(data: map<string, string>, key: string): string {
    if key in data then data[key] else ""
  }

  /** `data.get(key) or None`. */
  function NonBlank(data: map<string, string>, key: string): (r: Option<string>)
    ensures r.Some? <==> key in data && data[key] != ""
    ensures r.Some? ==> r.value == data[key]
  {
    if key in data && data[key] != "" then Some(data[key]) else None
  }

  /** The category a field map names, `Data` when it names none of the template's choices. */
  function CategoryOf(data: map<string, string>): (c: JobCategory)
    ensures Get(data, "job_category") in JobCategoryMap ==> c == JobCategoryMap[Get(data, "job_category")]
    ensures Get(data, "job_category") !in JobCategoryMap ==> c == Data
  {
    var heading := Get(data, "job_category");
    if heading in JobCategoryMap then JobCategoryMap[heading] else Data
  }

  /** The years a field map states: `int()` of the field, or 0 when it is missing or no integer. */
  function YearsOf(data: map<string, string>): (y: int)
    ensures "experience_years" !in data ==> y == 0
    ensures "experience_years" in data ==> y == ParseInt(data["experience_years"]).GetOr(0)
  {
    if "experience_years" in data then ParseInt(data["experience_years"]).GetOr(0) else 0
  }

  /** The fields of a body that can be parsed. */
  function BodyFields(body: Body): map<string, string>
    requires !body.Null?
  {
    Fields(Sections(if body.Text? then body.text else ""))
  }

  /**
   * `parse_issue_to_profile`. The result is `None` exactly when Python raises or the
   * username is missing or empty: a `null` body, a missing number, URL or creation time, or
   * a creation time that `datetime.fromisoformat` (the predicate `isIsoFormat`) rejects once
   * its `Z` is written `+00:00`. Otherwise the profile carries the issue number as its id,
   * the username as written, and the parsed list fields, category and years.
   */
  function ParseIssueToProfile(issue: Issue, isIsoFormat: string -> bool): (r: Option<Profile>)
    ensures r.Some? <==>
              !issue.body.Null? && issue.number.Some? && issue.htmlUrl.Some? &&
              "github_username" in BodyFields(issue.body) && BodyFields(issue.body)["github_username"] != "" &&
              issue.createdAt.Some? && isIsoFormat(ReplaceChar(issue.createdAt.value, 'Z', "+00:00"))
    ensures r.Some? ==>
              var data := BodyFields(issue.body);
              var p := r.value;
              p.id == IntToString(issue.number.value) && p.issueUrl == issue.htmlUrl.value &&
              p.githubUsername == data["github_username"] &&
              p.email == NonBlank(data, "email") && p.introduction == NonBlank(data, "introduction") &&
              p.jobCategory == CategoryOf(data) && p.experienceYears == YearsOf(data) &&
              p.skills == ParseMultiline(Get(data, "skills")) &&
              p.certifications == ParseMultiline(Get(data, "certifications")) &&
              p.preferredLocations == ParseCommaSeparated(Get(data, "preferred_location")) &&
              p.embedding.None?
  {
    if issue.body.Null? || issue.number.None? || issue.htmlUrl.None? then None
    else
      var data := BodyFields(issue.body);
      if Get(data, "github_username") == "" then None
      else if issue.createdAt.None? then None
      else
        var created := ReplaceChar(issue.createdAt.value, 'Z', "+00:00");
        if !isIsoFormat(created) then None
        else
          Some(Profile(
            id := IntToString(issue.number.value),
            githubUsername := data["github_username"],
            email := NonBlank(data, "email"),
            jobCategory := CategoryOf(data),
            experienceYears := YearsOf(data),
            preferredLocations := ParseCommaSeparated(Get(data, "preferred_location")),
            skills := ParseMultiline(Get(data, "skills")),
            certifications := ParseMultiline(Get(data, "certifications")),
            introduction := NonBlank(data, "introduction"),
            issueUrl := issue.htmlUrl.value,
            createdAt := created,
            embedding := None))
  }

  /** The issue number reads back from the profile id. */
  lemma ProfileIdIsNumber(issue: Issue, isIsoFormat: string -> bool)
    requires ParseIssueToProfile(issue, isIsoFormat).Some?
    ensures ParseInt(ParseIssueToProfile(issue, isIsoFormat).value.id) == issue.number
  {
    ParseIntToString(issue.number.value);
  }
}
