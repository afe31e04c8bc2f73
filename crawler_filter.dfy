/**
 * The posting eligibility filter of src/crawlers/base.py: every crawler keeps a scraped
 * posting only when its title carries no seniority word, its title or description names
 * one of the wanted jobs, and its experience requirement is open to new graduates.
 *
 * The five "years of experience" regular expressions are hand-written scanners. Each of
 * them is a sequence of greedy runs (`\s*`, `\d+`) and literals where the character that
 * must follow a run can never belong to that run, so a greedy run never has to give
 * characters back: the scanner takes each run whole, as the regex engine ends up doing.
 * `\d` is taken to be an ASCII digit and `\s` a character for which `str.isspace()` holds.
 */
module CrawlerFilter {
  import opened Wrappers
  import opened Text
  import opened Postings

  /** The keyword lists the filter is configured with. */
  datatype FilterSettings = FilterSettings(jobKeywords: seq<string>, excludeKeywords: seq<string>)

  /** The configured defaults (config/settings.py). */
  const DefaultSettings := FilterSettings(
    ["데이터 분석", "데이터분석", "Data Analyst", "Data Analysis", "데이터 사이언티스트",
     "Data Scientist", "BI 분석", "비즈니스 분석", "데이터 엔지니어", "Data Engineer",
     "머신러닝", "ML Engineer"],
    ["시니어", "Senior", "팀장", "리드", "Lead", "Principal", "Staff", "Head"])

  /** Words that mark a posting as open to entry-level applicants. */
  const EntryKeywords: seq<string> :=
    ["신입", "경력무관", "경력 무관", "인턴", "intern", "entry", "junior", "신입/경력", "경력/신입"]

  // ---------------------------------------------------------------------------
  // The specification of the filter
  // ---------------------------------------------------------------------------

  /** Some exclude keyword, lower-cased, occurs in the lower-cased title. */
  predicate TitleExcluded(settings: FilterSettings, title: string) {
    exists k :: k in settings.excludeKeywords && Contains(Lower(title), Lower(k))
  }

  /** Some job keyword, lower-cased, occurs in the search text. */
  predicate KeywordHit(settings: FilterSettings, job: JobPosting) {
    exists k :: k in settings.jobKeywords && Contains(SearchText(job), Lower(k))
  }

  /** What `matches_filter` decides, rule by rule. */
  predicate Accepts(settings: FilterSettings, job: JobPosting) {
    !TitleExcluded(settings, job.title) && KeywordHit(settings, job) &&
    EntryLevelFriendly(job.experienceText)
  }

  /** The normalised requirement text: lower-cased, then stripped. */
  function Normalise(expText: string): string {
    Strip(Lower(expText))
  }

  predicate HasEntryMarker(t: string) {
    AnyContains(t, EntryKeywords)
  }

  /** Some career pattern's first match asks for at least one year. */
  predicate CareerBarFound(t: string) {
    exists i :: 0 <= i < |CareerPatterns| && PatternRejects(CareerPatterns[i], t)
  }

  /** "경력" stands in the text with neither "신입" nor "무관" beside it. */
  predicate BareCareerWord(t: string) {
    Contains(t, "경력") && !(Contains(t, "신입") || Contains(t, "무관"))
  }

  /** What `_is_entry_level_friendly` decides, rule by rule. */
  predicate EntryLevelFriendly(expText: Option<string>) {
    if expText.None? || expText.value == "" then true
    else
      var t := Normalise(expText.value);
      if HasEntryMarker(t) then true
      else if CareerBarFound(t) then false
      else !BareCareerWord(t)
  }

  // ---------------------------------------------------------------------------
  // The career patterns
  // ---------------------------------------------------------------------------

  datatype CareerPattern =
    | CareerThenYears   // 경력\s*(\d+)
    | YearsOrMore       // (\d+)\s*년\s*이상
    | TildeRange        // (\d+)\s*~\s*(\d+)\s*년
    | DashRange         // (\d+)\s*-\s*(\d+)\s*년
    | YearsThenTilde    // (\d+)\s*년\s*~

  /** The patterns in the order the filter tries them. */
  const CareerPatterns: seq<CareerPattern> :=
    [CareerThenYears, YearsOrMore, TildeRange, DashRange, YearsThenTilde]

  /** The end of the run of whitespace that starts at `i`. */
  function SkipSpaces(s: string, i: nat): (j: nat)
    requires i <= |s|
    ensures i <= j <= |s|
    ensures forall k :: i <= k < j ==> IsSpace(s[k])
    ensures j < |s| ==> !IsSpace(s[j])
    decreases |s| - i
  {
    if i < |s| && IsSpace(s[i]) then SkipSpaces(s, i + 1) else i
  }

  /** The end of the run of digits that starts at `i`. */
  function SkipDigits(s: string, i: nat): (j: nat)
    requires i <= |s|
    ensures i <= j <= |s|
    ensures forall k :: i <= k < j ==> IsDigit(s[k])
    ensures j < |s| ==> !IsDigit(s[j])
    decreases |s| - i
  {
    if i < |s| && IsDigit(s[i]) then SkipDigits(s, i + 1) else i
  }

  /** `(\d+)\s*<sep>\s*(\d+)\s*년` at `i`: the two numbers. */
  function RangeAt(s: string, i: nat, sep: char): (r: Option<seq<nat>>)
    requires i <= |s|
    ensures r.Some? ==> |r.value| == 2 && i < |s| && IsDigit(s[i])
  {
    var e1 := SkipDigits(s, i);
    if e1 == i then None
    else
      var j := SkipSpaces(s, e1);
      if !(j < |s| && s[j] == sep) then None
      else
        var b := SkipSpaces(s, j + 1);
        var e2 := SkipDigits(s, b);
        if e2 == b then None
        else
          var k := SkipSpaces(s, e2);
          if OccursAt(s, "년", k) then Some([DigitsValue(s[i..e1]), DigitsValue(s[b..e2])])
          else None
  }

  /** `(\d+)\s*년\s*<tail>` at `i`: the number. */
  function YearsThenAt(s: string, i: nat, tail: string): (r: Option<seq<nat>>)
    requires i <= |s|
    ensures r.Some? ==> |r.value| == 1 && i < |s| && IsDigit(s[i])
  {
    var e := SkipDigits(s, i);
    if e == i then None
    else
      var j := SkipSpaces(s, e);
      if !OccursAt(s, "년", j) then None
      else
        var k := SkipSpaces(s, j + 1);
        if OccursAt(s, tail, k) then Some([DigitsValue(s[i..e])]) else None
  }

  /** Whether pattern `p` matches at index `i` of `s`, and the integers its groups capture. */
  function MatchAt(p: CareerPattern, s: string, i: nat): (r: Option<seq<nat>>)
    requires i <= |s|
    ensures r.Some? ==> |r.value| >= 1
    ensures r.Some? && p != CareerThenYears ==> i < |s| && IsDigit(s[i])
    ensures r.Some? && p == CareerThenYears ==> OccursAt(s, "경력", i)
  {
    match p
    case CareerThenYears =>
      if OccursAt(s, "경력", i) then
        var j := SkipSpaces(s, i + 2);
        var e := SkipDigits(s, j);
        if e > j then Some([DigitsValue(s[j..e])]) else None
      else None
    case YearsOrMore => YearsThenAt(s, i, "이상")
    case TildeRange => RangeAt(s, i, '~')
    case DashRange => RangeAt(s, i, '-')
    case YearsThenTilde => YearsThenAt(s, i, "~")
  }

  /** The value `f` gives at the first index from `i` to `n` where it gives one. */
  function FirstHit(f: nat -> Option<seq<nat>>, i: nat, n: nat): Option<seq<nat>>
    decreases n - i
  {
    if f(i).Some? then f(i)
    else if i >= n then None
    else FirstHit(f, i + 1, n)
  }

  /** `FirstHit` gives a value exactly when `f` does somewhere in range, the leftmost one. */
  lemma {:induction false} FirstHitLeftmost(f: nat -> Option<seq<nat>>, i: nat, n: nat)
    requires i <= n
    ensures FirstHit(f, i, n).Some? <==> exists k :: i <= k <= n && f(k).Some?
    ensures FirstHit(f, i, n).Some? ==>
              exists k :: i <= k <= n && f(k) == FirstHit(f, i, n) && forall j :: i <= j < k ==> f(j).None?
    decreases n - i
  {
    if f(i).None? && i < n {
      FirstHitLeftmost(f, i + 1, n);
      if FirstHit(f, i, n).Some? {
        var k :| i + 1 <= k <= n && f(k) == FirstHit(f, i, n) && forall j :: i + 1 <= j < k ==> f(j).None?;
        assert forall j :: i <= j < k ==> f(j).None?;
      }
    }
  }

  /** Pattern `p` tried at each index of `s`. */
  function Matcher(p: CareerPattern, s: string): nat -> Option<seq<nat>> {
    (k: nat) => if k <= |s| then MatchAt(p, s, k) else None
  }

  /** `re.search` from index `i` on: the captures of the match at the leftmost index that has one. */
  function SearchFrom(p: CareerPattern, s: string, i: nat): Option<seq<nat>>
    requires i <= |s|
  {
    FirstHit(Matcher(p, s), i, |s|)
  }

  /**
   * `SearchFrom` is `re.search`: it finds a match exactly when one starts somewhere at or
   * after `i`, and what it returns is the match at the leftmost such start.
   */
  lemma SearchFromLeftmost(p: CareerPattern, s: string, i: nat)
    requires i <= |s|
    ensures SearchFrom(p, s, i).Some? <==> exists k :: i <= k <= |s| && MatchAt(p, s, k).Some?
    ensures SearchFrom(p, s, i).Some? ==>
              exists k :: i <= k <= |s| && MatchAt(p, s, k) == SearchFrom(p, s, i) &&
                          forall j :: i <= j < k ==> MatchAt(p, s, j).None?
  {
    var f := Matcher(p, s);
    FirstHitLeftmost(f, i, |s|);
    assert forall k :: 0 <= k <= |s| ==> f(k) == MatchAt(p, s, k);
  }

  /** The captures of the first match of `p` in `s`, if any. */
  function FirstMatch(p: CareerPattern, s: string): Option<seq<nat>> {
    SearchFrom(p, s, 0)
  }

  function Min(xs: seq<nat>): (m: nat)
    requires |xs| >= 1
    ensures m in xs && forall k :: 0 <= k < |xs| ==> m <= xs[k]
  {
    if |xs| == 1 then xs[0]
    else
      var rest := Min(xs[1..]);
      if xs[0] <= rest then xs[0] else rest
  }

  /** The first match of `p` captures some integers, and their minimum is at least one. */
  predicate PatternRejects(p: CareerPattern, t: string) {
    var m := FirstMatch(p, t);
    m.Some? && |m.value| > 0 && Min(m.value) >= 1
  }

  // ---------------------------------------------------------------------------
  // The filter as the crawlers run it
  // ---------------------------------------------------------------------------

  /** `BaseCrawler.matches_filter`. */
  method MatchesFilter(settings: FilterSettings, job: JobPosting) returns (r: bool)
    ensures r == Accepts(settings, job)
    ensures TitleExcluded(settings, job.title) ==> !r
    ensures !KeywordHit(settings, job) ==> !r
    ensures r ==> EntryLevelFriendly(job.experienceText)
  {
    var titleLower := Lower(job.title);
    var i := 0;
    while i < |settings.excludeKeywords|
      invariant 0 <= i <= |settings.excludeKeywords|
      invariant forall j :: 0 <= j < i ==> !Contains(titleLower, Lower(settings.excludeKeywords[j]))
    {
      if Contains(titleLower, Lower(settings.excludeKeywords[i])) {
        return false;
      }
      i := i + 1;
    }

    var jobMatch := false;
    var searchText := Lower(job.title + " " + OrEmpty(job.description));
    var k := 0;
    while k < |settings.jobKeywords|
      invariant 0 <= k <= |settings.jobKeywords|
      invariant !jobMatch
      invariant forall j :: 0 <= j < k ==> !Contains(searchText, Lower(settings.jobKeywords[j]))
    {
      if Contains(searchText, Lower(settings.jobKeywords[k])) {
        jobMatch := true;
        break;
      }
      k := k + 1;
    }
    if !jobMatch {
      return false;
    }

    r := IsEntryLevelFriendly(job.experienceText);
  }

  /** `BaseCrawler._is_entry_level_friendly`; its two `for` loops are `FindKeyword` and `FindCareerBar`. */
  method IsEntryLevelFriendly(expText: Option<string>) returns (r: bool)
    ensures r == EntryLevelFriendly(expText)
    ensures expText.None? || expText == Some("") ==> r
    ensures expText.Some? && HasEntryMarker(Normalise(expText.value)) ==> r
  {
    if expText.None? || expText.value == "" {
      return true;
    }
    var expLower := Normalise(expText.value);

    var entry := FindKeyword(expLower, EntryKeywords);
    if entry {
      return true;
    }

    var bar := FindCareerBar(expLower, CareerPatterns);
    if bar {
      return false;
    }

    if Contains(expLower, "경력") && !(Contains(expLower, "신입") || Contains(expLower, "무관")) {
      return false;
    }
    return true;
  }

  /** `for keyword in keywords: if keyword in text: return True`, falling through to `False`. */
  method FindKeyword(text: string, keywords: seq<string>) returns (found: bool)
    ensures found <==> exists j :: 0 <= j < |keywords| && Contains(text, keywords[j])
  {
    for i := 0 to |keywords|
      invariant forall j :: 0 <= j < i ==> !Contains(text, keywords[j])
    {
      if Contains(text, keywords[i]) {
        return true;
      }
    }
    return false;
  }

  /**
   * The pattern loop: for each pattern in turn, only its first match is looked at, and the
   * loop stops at the first match whose smallest captured number is at least one.
   */
  method FindCareerBar(text: string, patterns: seq<CareerPattern>) returns (rejects: bool)
    ensures rejects <==> exists j :: 0 <= j < |patterns| && PatternRejects(patterns[j], text)
  {
    for i := 0 to |patterns|
      invariant forall j :: 0 <= j < i ==> !PatternRejects(patterns[j], text)
    {
      var m := FirstMatch(patterns[i], text);
      if m.Some? {
        var years := m.value;
        if |years| > 0 {
          var minYears := Min(years);
          if minYears >= 1 {
            return true;
          }
        }
      }
      assert !PatternRejects(patterns[i], text);
    }
    return false;
  }

  // ---------------------------------------------------------------------------
  // Properties of the experience rule
  // ---------------------------------------------------------------------------

  /** Every career pattern starts with a digit or with "경력", so without either nothing matches. */
  lemma NoMatchWithoutDigitOrCareer(p: CareerPattern, t: string)
    requires forall k :: 0 <= k < |t| ==> !IsDigit(t[k])
    requires !Contains(t, "경력")
    ensures FirstMatch(p, t).None?
  {
    SearchFromLeftmost(p, t, 0);
    forall k | 0 <= k <= |t|
      ensures MatchAt(p, t, k).None?
    {
    }
  }

  /** Lower-casing and stripping bring in no digit and no "경력". */
  lemma NormaliseAddsNoYears(e: string)
    requires forall k :: 0 <= k < |e| ==> !IsDigit(e[k])
    requires !Contains(e, "경력")
    ensures var t := Normalise(e);
            (forall k :: 0 <= k < |t| ==> !IsDigit(t[k])) && !Contains(t, "경력")
  {
    NormaliseAddsNoDigit(e);
    if Contains(Normalise(e), "경력") {
      NormaliseAddsNoWord(e, "경력");
      assert false;
    }
  }

  /** Lower-casing and stripping bring in no digit. */
  lemma NormaliseAddsNoDigit(e: string)
    requires forall k :: 0 <= k < |e| ==> !IsDigit(e[k])
    ensures forall k :: 0 <= k < |Normalise(e)| ==> !IsDigit(Normalise(e)[k])
  {
    var low := Lower(e);
    LowerAddsNoDigit(e);
    StripIsSlice(low);
    NoDigitInSlice(low, StripStart(low), StripStart(low) + |Strip(low)|);
  }

  /** A word without lower-case ASCII letters that is in the normalised text is in the text. */
  lemma NormaliseAddsNoWord(e: string, w: string)
    requires forall k :: 0 <= k < |w| ==> !('a' <= w[k] <= 'z')
    requires Contains(Normalise(e), w)
    ensures Contains(e, w)
  {
    var low := Lower(e);
    StripIsSlice(low);
    var a, b := StripStart(low), StripStart(low) + |Strip(low)|;
    assert Normalise(e) == low[a..b];
    ContainsOfSlice(low, a, b, w);
    ContainsOfLower(e, w);
  }

  /** Lower-casing brings in no digit. */
  lemma LowerAddsNoDigit(e: string)
    requires forall k :: 0 <= k < |e| ==> !IsDigit(e[k])
    ensures forall k :: 0 <= k < |Lower(e)| ==> !IsDigit(Lower(e)[k])
  {
  }

  /** A slice of a text without digits has no digit. */
  lemma NoDigitInSlice(s: string, a: nat, b: nat)
    requires a <= b <= |s|
    requires forall k :: 0 <= k < |s| ==> !IsDigit(s[k])
    ensures forall k :: 0 <= k < |s[a..b]| ==> !IsDigit(s[a..b][k])
  {
    forall k | 0 <= k < |s[a..b]|
      ensures !IsDigit(s[a..b][k])
    {
      assert s[a..b][k] == s[a + k];
    }
  }

  /** Without a digit or "경력" neither the pattern rule nor the bare-word rule can reject. */
  lemma NoYearsNoBar(t: string)
    requires forall k :: 0 <= k < |t| ==> !IsDigit(t[k])
    requires !Contains(t, "경력")
    ensures !CareerBarFound(t) && !BareCareerWord(t)
  {
    forall i | 0 <= i < |CareerPatterns|
      ensures !PatternRejects(CareerPatterns[i], t)
    {
      NoMatchWithoutDigitOrCareer(CareerPatterns[i], t);
    }
  }

  /**
   * The catch-all rule: a requirement text with no digit and no "경력" is accepted, whatever
   * else it says.
   */
  lemma NoYearsAccepted(e: string)
    requires forall k :: 0 <= k < |e| ==> !IsDigit(e[k])
    requires !Contains(e, "경력")
    ensures EntryLevelFriendly(Some(e))
  {
    if e != "" {
      NormaliseAddsNoYears(e);
      NoYearsNoBar(Normalise(e));
    }
  }

  /** A text with none of the entry markers' first characters carries no entry marker. */
  lemma NoEntryMarkerByFirstChars(t: string)
    requires forall k :: 0 <= k < |t| ==> t[k] !in {'신', '경', '인', 'i', 'e', 'j'}
    ensures !HasEntryMarker(t)
  {
    forall j | 0 <= j < |EntryKeywords|
      ensures !Contains(t, EntryKeywords[j])
    {
      NotContainsByFirstChar(t, EntryKeywords[j]);
    }
  }

  /** The text is already lower-case and stripped. */
  lemma NormaliseFixed(t: string)
    requires forall k :: 0 <= k < |t| ==> !('A' <= t[k] <= 'Z')
    requires t != [] ==> !IsSpace(t[0]) && !IsSpace(t[|t| - 1])
    ensures Normalise(t) == t
  {
    LowerIdentity(t);
    StripNoSpace(t);
  }

  /** The range pattern reads "1~3년" as the range from 1 to 3. */
  lemma TildeRangeOneToThree()
    ensures FirstMatch(TildeRange, "1~3년") == Some([1, 3])
  {
    var t := "1~3년";
    assert SkipDigits(t, 0) == 1 by { assert SkipDigits(t, 1) == 1; }
    assert SkipSpaces(t, 1) == 1 && SkipSpaces(t, 2) == 2;
    assert SkipDigits(t, 2) == 3 by { assert SkipDigits(t, 3) == 3; }
    assert SkipSpaces(t, 3) == 3 && OccursAt(t, "년", 3);
    assert t[0..1] == "1" && t[2..3] == "3";
  }

  /** The pattern rule rejects a text that carries no entry marker. */
  lemma PatternRuleRejects(e: string, i: nat)
    requires e != "" && i < |CareerPatterns|
    requires !HasEntryMarker(Normalise(e)) && PatternRejects(CareerPatterns[i], Normalise(e))
    ensures !EntryLevelFriendly(Some(e))
  {
  }

  /** The range pattern rejects "1~3년": the smaller of its two numbers is 1. */
  lemma TildeRangeRejects()
    ensures PatternRejects(CareerPatterns[2], "1~3년")
  {
    TildeRangeOneToThree();
    assert [1, 3][1..] == [3];
  }

  /** "1~3년": the range pattern's first match captures 1 and 3, so the posting is dropped. */
  lemma RangeFromOneRejected()
    ensures !EntryLevelFriendly(Some("1~3년"))
  {
    var t := "1~3년";
    NormaliseFixed(t);
    NoEntryMarkerByFirstChars(t);
    TildeRangeRejects();
    PatternRuleRejects(t, 2);
  }

  /** What a match of each pattern needs to find somewhere in the text. */
  lemma MatchNeeds(p: CareerPattern, s: string, i: nat)
    requires i <= |s| && MatchAt(p, s, i).Some?
    ensures p == CareerThenYears ==> Contains(s, "경력")
    ensures p == YearsOrMore ==> Contains(s, "이상")
    ensures p == TildeRange || p == YearsThenTilde ==> '~' in s
    ensures p == DashRange ==> '-' in s
    ensures p != CareerThenYears ==> Contains(s, "년")
  {
    match p
    case CareerThenYears =>
    case YearsOrMore => YearsThenNeedsTail(s, i, "이상");
    case YearsThenTilde =>
      YearsThenNeedsTail(s, i, "~");
      ContainsChar(s, '~');
    case TildeRange =>
      RangeNeedsSeparator(s, i, '~');
      RangeNeedsYearWord(s, i, '~');
    case DashRange =>
      RangeNeedsSeparator(s, i, '-');
      RangeNeedsYearWord(s, i, '-');
  }

  /** A match of `(\d+)\s*년\s*<tail>` has `tail` in the text. */
  lemma YearsThenNeedsTail(s: string, i: nat, tail: string)
    requires i <= |s| && YearsThenAt(s, i, tail).Some?
    ensures Contains(s, tail) && Contains(s, "년")
  {
    var j := SkipSpaces(s, SkipDigits(s, i));
    assert OccursAt(s, "년", j);
    var k := SkipSpaces(s, j + 1);
    assert OccursAt(s, tail, k);
  }

  /** A match of `(\d+)\s*<sep>\s*(\d+)\s*년` has `sep` in the text. */
  lemma RangeNeedsSeparator(s: string, i: nat, sep: char)
    requires i <= |s| && RangeAt(s, i, sep).Some?
    ensures sep in s
  {
    var j := SkipSpaces(s, SkipDigits(s, i));
    assert s[j] == sep;
  }

  /** A match of `(\d+)\s*<sep>\s*(\d+)\s*년` has "년" in the text. */
  lemma RangeNeedsYearWord(s: string, i: nat, sep: char)
    requires i <= |s| && RangeAt(s, i, sep).Some?
    ensures Contains(s, "년")
  {
    var e1 := SkipDigits(s, i);
    assert e1 != i;
    var j := SkipSpaces(s, e1);
    assert j < |s| && s[j] == sep;
    var b := SkipSpaces(s, j + 1);
    var e2 := SkipDigits(s, b);
    assert e2 != b;
    var k := SkipSpaces(s, e2);
    assert OccursAt(s, "년", k);
  }

  /** A one-character text is contained exactly where its character occurs. */
  lemma ContainsChar(s: string, c: char)
    requires Contains(s, [c])
    ensures c in s
  {
    var i :| 0 <= i <= |s| - 1 && OccursAt(s, [c], i);
    assert s[i..i + 1][0] == s[i];
  }

  /** A pattern whose needed text is missing has no first match. */
  lemma NoMatchWithoutNeeded(p: CareerPattern, s: string)
    requires p == CareerThenYears ==> !Contains(s, "경력")
    requires p == YearsOrMore ==> !Contains(s, "이상")
    requires p == TildeRange || p == YearsThenTilde ==> '~' !in s
    requires p == DashRange ==> '-' !in s
    ensures FirstMatch(p, s).None?
  {
    SearchFromLeftmost(p, s, 0);
    forall k | 0 <= k <= |s|
      ensures MatchAt(p, s, k).None?
    {
      if MatchAt(p, s, k).Some? {
        MatchNeeds(p, s, k);
        assert false;
      }
    }
  }

  /** Every pattern but the first needs "년", and the first needs "경력": without both, nothing matches. */
  lemma NoMatchWithoutYearWord(p: CareerPattern, s: string)
    requires !Contains(s, "년") && !Contains(s, "경력")
    ensures FirstMatch(p, s).None?
  {
    SearchFromLeftmost(p, s, 0);
    forall k | 0 <= k <= |s|
      ensures MatchAt(p, s, k).None?
    {
      if MatchAt(p, s, k).Some? {
        MatchNeeds(p, s, k);
        assert false;
      }
    }
  }

  /**
   * The catch-all rule: a requirement text with neither "년" nor "경력" is accepted, whatever
   * numbers it carries, because no career pattern can match and the bare-word rule needs "경력".
   */
  lemma NoYearWordAccepted(e: string)
    requires !Contains(e, "년") && !Contains(e, "경력")
    ensures EntryLevelFriendly(Some(e))
  {
    if e != "" {
      var t := Normalise(e);
      if Contains(t, "년") {
        NormaliseAddsNoWord(e, "년");
        assert false;
      }
      if Contains(t, "경력") {
        NormaliseAddsNoWord(e, "경력");
        assert false;
      }
      forall i | 0 <= i < |CareerPatterns|
        ensures !PatternRejects(CareerPatterns[i], t)
      {
        NoMatchWithoutYearWord(CareerPatterns[i], t);
      }
    }
  }

  /** "3명 채용" names a number of hires, not years, and is kept. */
  lemma HeadcountAccepted()
    ensures EntryLevelFriendly(Some("3명 채용"))
  {
    var t := "3명 채용";
    NotContainsByFirstChar(t, "년");
    NotContainsByFirstChar(t, "경력");
    NoYearWordAccepted(t);
  }

  /** "3년 이상" reads as "three years or more". */
  lemma ThreeYearsOrMoreMatch()
    ensures FirstMatch(YearsOrMore, "3년 이상") == Some([3])
  {
    var t := "3년 이상";
    assert SkipDigits(t, 0) == 1 by { assert SkipDigits(t, 1) == 1; }
    assert SkipSpaces(t, 1) == 1 && OccursAt(t, "년", 1);
    assert SkipSpaces(t, 2) == 3 by { assert SkipSpaces(t, 3) == 3; }
    assert OccursAt(t, "이상", 3);
    assert t[0..1] == "3";
  }

  /** The years-or-more pattern rejects "3년 이상": its one number is 3. */
  lemma ThreeYearsOrMoreRejects()
    ensures PatternRejects(CareerPatterns[1], "3년 이상")
  {
    ThreeYearsOrMoreMatch();
    assert Min([3]) == 3;
  }

  /** "3년 이상": the years-or-more pattern captures 3, so the posting is dropped. */
  lemma ThreeYearsOrMoreRejected()
    ensures !EntryLevelFriendly(Some("3년 이상"))
  {
    var t := "3년 이상";
    NormaliseFixed(t);
    NoEntryMarkerByFirstChars(t);
    ThreeYearsOrMoreRejects();
    PatternRuleRejects(t, 1);
  }

  /** A text that opens with a digit, "년", a space and "이상" is first matched right there. */
  lemma YearsOrMoreAtStart(s: string)
    requires |s| >= 5 && IsDigit(s[0]) && s[1] == '년' && s[2] == ' ' && s[3..5] == "이상"
    ensures FirstMatch(YearsOrMore, s) == Some([DigitsValue(s[0..1])])
  {
    assert SkipDigits(s, 0) == 1 by { assert SkipDigits(s, 1) == 1; }
    assert SkipSpaces(s, 1) == 1 && OccursAt(s, "년", 1);
    assert SkipSpaces(s, 2) == 3 by { assert SkipSpaces(s, 3) == 3; }
    assert OccursAt(s, "이상", 3);
    assert Matcher(YearsOrMore, s)(0) == MatchAt(YearsOrMore, s, 0);
  }

  /** In "0년 이상, 3년 이상 우대" the years-or-more pattern first matches "0년 이상". */
  lemma FirstOfTwoYearsMatch()
    ensures FirstMatch(YearsOrMore, "0년 이상, 3년 이상 우대") == Some([0])
  {
    var t := "0년 이상, 3년 이상 우대";
    assert t[3..5] == "이상";
    YearsOrMoreAtStart(t);
    assert t[0..1] == "0";
  }

  /** Lacking "경력", '~' and '-', "0년 이상, 3년 이상 우대" is matched by none of the other four patterns. */
  lemma FirstOfTwoYearsOthersMiss()
    ensures var t := "0년 이상, 3년 이상 우대";
            FirstMatch(CareerThenYears, t).None? && FirstMatch(TildeRange, t).None? &&
            FirstMatch(DashRange, t).None? && FirstMatch(YearsThenTilde, t).None?
  {
    var t := "0년 이상, 3년 이상 우대";
    NotContainsByFirstChar(t, "경력");
    NoMatchWithoutNeeded(CareerThenYears, t);
    NoMatchWithoutNeeded(TildeRange, t);
    NoMatchWithoutNeeded(DashRange, t);
    NoMatchWithoutNeeded(YearsThenTilde, t);
  }

  /**
   * Only each pattern's first match is looked at: "0년 이상, 3년 이상 우대" carries "3년 이상"
   * and is still kept, because the first years-or-more match captures 0.
   */
  lemma FirstMatchOnlyKept()
    ensures EntryLevelFriendly(Some("0년 이상, 3년 이상 우대"))
  {
    var t := "0년 이상, 3년 이상 우대";
    NormaliseFixed(t);
    NotContainsByFirstChar(t, "경력");
    FirstOfTwoYearsNoRejection();
    AcceptedWithoutBar(t);
  }

  /** A normalised text that no career pattern rejects and that lacks "경력" is kept. */
  lemma AcceptedWithoutBar(t: string)
    requires t != "" && Normalise(t) == t
    requires !CareerBarFound(t) && !Contains(t, "경력")
    ensures EntryLevelFriendly(Some(t))
  {
  }

  /** No career pattern rejects "0년 이상, 3년 이상 우대": the first years-or-more match captures 0. */
  lemma FirstOfTwoYearsNoRejection()
    ensures !CareerBarFound("0년 이상, 3년 이상 우대")
  {
    var t := "0년 이상, 3년 이상 우대";
    FirstOfTwoYearsMatch();
    assert Min([0]) == 0;
    FirstOfTwoYearsOthersMiss();
    NoPatternRejects(t);
  }

  /** "0년 이상" reads as "zero years or more". */
  lemma ZeroYearsOrMoreMatch()
    ensures FirstMatch(YearsOrMore, "0년 이상") == Some([0])
  {
    var t := "0년 이상";
    assert SkipDigits(t, 0) == 1 by { assert SkipDigits(t, 1) == 1; }
    assert SkipSpaces(t, 1) == 1 && OccursAt(t, "년", 1);
    assert SkipSpaces(t, 2) == 3 by { assert SkipSpaces(t, 3) == 3; }
    assert OccursAt(t, "이상", 3);
    assert t[0..1] == "0";
  }

  /** "0년 이상": the only pattern that matches captures 0, so the posting is kept. */
  lemma ZeroYearsOrMoreAccepted()
    ensures EntryLevelFriendly(Some("0년 이상"))
  {
    var t := "0년 이상";
    NormaliseFixed(t);
    NotContainsByFirstChar(t, "경력");
    ZeroYearsOrMoreNoRejection();
  }

  /** No career pattern rejects "0년 이상": all but one cannot match, and that one captures 0. */
  lemma ZeroYearsOrMoreNoRejection()
    ensures !CareerBarFound("0년 이상")
  {
    var t := "0년 이상";
    ZeroYearsOrMoreMatch();
    assert Min([0]) == 0;
    ZeroYearsOrMoreOthersMiss();
    NoPatternRejects(t);
  }

  /** Lacking "경력", '~' and '-', "0년 이상" is matched by none of the other four patterns. */
  lemma ZeroYearsOrMoreOthersMiss()
    ensures FirstMatch(CareerThenYears, "0년 이상").None? && FirstMatch(TildeRange, "0년 이상").None?
    ensures FirstMatch(DashRange, "0년 이상").None? && FirstMatch(YearsThenTilde, "0년 이상").None?
  {
    var t := "0년 이상";
    NotContainsByFirstChar(t, "경력");
    NoMatchWithoutNeeded(CareerThenYears, t);
    NoMatchWithoutNeeded(TildeRange, t);
    NoMatchWithoutNeeded(DashRange, t);
    NoMatchWithoutNeeded(YearsThenTilde, t);
  }

  /** Without a rejecting pattern among the five, no career bar is found. */
  lemma NoPatternRejects(t: string)
    requires !PatternRejects(CareerThenYears, t) && !PatternRejects(YearsOrMore, t)
    requires !PatternRejects(TildeRange, t) && !PatternRejects(DashRange, t)
    requires !PatternRejects(YearsThenTilde, t)
    ensures !CareerBarFound(t)
  {
    forall i | 0 <= i < |CareerPatterns|
      ensures !PatternRejects(CareerPatterns[i], t)
    {
      assert i == 0 || i == 1 || i == 2 || i == 3 || i == 4;
    }
  }

  /** "신입/경력": an entry marker is there, so the posting is kept before any pattern is tried. */
  lemma EntryOrCareerAccepted()
    ensures EntryLevelFriendly(Some("신입/경력"))
  {
    var t := "신입/경력";
    NormaliseFixed(t);
    assert OccursAt(t, "신입", 0);
  }
}
