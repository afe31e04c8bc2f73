/**
 * The match comment of src/notifiers/github_notifier.py: the Markdown text posted on a
 * profile's issue. Today's date is a parameter (the source reads the clock), and so is the
 * rendering of a score as a percentage (`f"{score:.0f}"`).
 */
module Notifier {
  import opened Wrappers
  import opened Text
  import opened Postings
  import opened Matching

  function Min(a: nat, b: nat): nat { if a <= b then a else b }

  /** The comment when nothing matched today. */
  function NoMatchesComment(today: string): string {
    "## 매칭 결과 (" + today + ")\n\n오늘 새로 매칭된 공고가 없습니다.\n\n---\n*자동 생성됨 by Recruitment Auto*\n"
  }

  /** A name longer than `n` characters is cut to its first `n` and marked with `"..."`. */
  function Truncate(s: string, n: nat): (r: string)
    ensures |s| <= n ==> r == s
    ensures |s| > n ==> |r| == n + 3 && r[n..] == "..."
    ensures |r| <= n + 3
    ensures |r| >= Min(|s|, n) && r[..Min(|s|, n)] == s[..Min(|s|, n)]
  {
    if |s| > n then s[..n] + "..." else s
  }

  /** The deadline cell: the posting's deadline text, or "상시" when it has none or it is empty. */
  function DeadlineCell(job: JobPosting): (r: string)
    ensures r != ""
    ensures r == "상시" || job.deadlineText == Some(r)
    ensures job.deadlineText.None? || job.deadlineText == Some("") ==> r == "상시"
    ensures job.deadlineText.Some? && job.deadlineText.value != "" ==> r == job.deadlineText.value
  {
    if job.deadlineText.Some? && job.deadlineText.value != "" then job.deadlineText.value else "상시"
  }

  /** The skills cell: the first three matched skills joined by ", ", or "-" when that is empty. */
  function SkillsCell(skills: seq<string>): (r: string)
    ensures r != ""
    ensures skills == [] ==> r == "-"
  {
    var shown := Join(skills[..Min(3, |skills|)], ", ");
    if shown == "" then "-" else shown
  }

  /** Only the first three matched skills are ever shown. */
  lemma SkillsCellFirstThree(skills: seq<string>)
    requires |skills| > 3
    ensures SkillsCell(skills) == SkillsCell(skills[..3])
  {
    assert skills[..3][..3] == skills[..3];
  }

  /** A single non-empty skill is shown as it is. */
  lemma SkillsCellSingle(skill: string)
    requires skill != ""
    ensures SkillsCell([skill]) == skill
  {
    assert [skill][..1] == [skill];
  }

  /** Two skills are shown both, in order, separated by ", ". */
  lemma SkillsCellTwo(a: string, b: string)
    ensures SkillsCell([a, b]) == a + ", " + b
  {
    assert [a, b][..Min(3, 2)] == [a, b] && [a, b][1..] == [b];
    assert Join([b], ", ") == b;
    assert Join([a, b], ", ") == a + ", " + b;
    assert |a + ", " + b| >= 2;
  }

  /** Three or more skills show the first three, in order, separated by ", ". */
  lemma SkillsCellThree(a: string, b: string, c: string, rest: seq<string>)
    ensures SkillsCell([a, b, c] + rest) == a + ", " + b + ", " + c
  {
    var skills := [a, b, c] + rest;
    assert skills[..Min(3, |skills|)] == [a, b, c];
    assert [a, b, c][1..] == [b, c] && [b, c][1..] == [c];
    assert Join([c], ", ") == c;
    assert Join([b, c], ", ") == b + ", " + c;
    assert Join([a, b, c], ", ") == a + ", " + (b + ", " + c);
    assert |a + ", " + b + ", " + c| >= 4;
  }

  /** The table row of one match and its posting. */
  function Row(m: MatchResult, job: JobPosting, formatScore: real -> string): string {
    "| [" + Truncate(job.companyName, 10) + "](" + job.sourceUrl + ") | " + Truncate(job.title, 20) +
    " | **" + formatScore(m.totalScore) + "%** | " + DeadlineCell(job) + " | " +
    SkillsCell(m.matchedSkills) + " |"
  }

  /** The matches whose posting is known, in their original order. */
  function Listed(matches: seq<MatchResult>, jobsMap: map<string, JobPosting>): seq<MatchResult> {
    if matches == [] then []
    else
      var init := Listed(matches[..|matches| - 1], jobsMap);
      var m := matches[|matches| - 1];
      if m.jobId in jobsMap then init + [m] else init
  }

  /** The rows, one per match whose posting is known. */
  function Rows(matches: seq<MatchResult>, jobsMap: map<string, JobPosting>, formatScore: real -> string): seq<string> {
    if matches == [] then []
    else
      var init := Rows(matches[..|matches| - 1], jobsMap, formatScore);
      var m := matches[|matches| - 1];
      if m.jobId in jobsMap then init + [Row(m, jobsMap[m.jobId], formatScore)] else init
  }

  /** Exactly the matches with a known posting are listed, and their order is kept. */
  lemma {:induction false} ListedMeaning(matches: seq<MatchResult>, jobsMap: map<string, JobPosting>)
    ensures |Listed(matches, jobsMap)| <= |matches|
    ensures forall m :: m in Listed(matches, jobsMap) <==> m in matches && m.jobId in jobsMap
    ensures (forall k :: 0 <= k < |matches| ==> matches[k].jobId in jobsMap) ==> Listed(matches, jobsMap) == matches
  {
    if matches != [] {
      var init := matches[..|matches| - 1];
      ListedMeaning(init, jobsMap);
      LastSplit(matches);
    }
  }

  /** The k-th row renders the k-th listed match with its posting. */
  lemma {:induction false} RowsAreListed(matches: seq<MatchResult>, jobsMap: map<string, JobPosting>, formatScore: real -> string)
    ensures |Rows(matches, jobsMap, formatScore)| == |Listed(matches, jobsMap)|
    ensures forall k :: 0 <= k < |Listed(matches, jobsMap)| ==>
              Listed(matches, jobsMap)[k].jobId in jobsMap &&
              Rows(matches, jobsMap, formatScore)[k] ==
                Row(Listed(matches, jobsMap)[k], jobsMap[Listed(matches, jobsMap)[k].jobId], formatScore)
  {
    if matches != [] {
      RowsAreListed(matches[..|matches| - 1], jobsMap, formatScore);
    }
  }

  /** One more match adds its row exactly when its posting is known. */
  lemma RowsStep(matches: seq<MatchResult>, i: nat, jobsMap: map<string, JobPosting>, formatScore: real -> string)
    requires i < |matches|
    ensures matches[i].jobId !in jobsMap ==> Rows(matches[..i + 1], jobsMap, formatScore) == Rows(matches[..i], jobsMap, formatScore)
    ensures matches[i].jobId in jobsMap ==>
              Rows(matches[..i + 1], jobsMap, formatScore) ==
                Rows(matches[..i], jobsMap, formatScore) + [Row(matches[i], jobsMap[matches[i].jobId], formatScore)]
  {
    assert matches[..i + 1][..i] == matches[..i];
  }

  /** The opening lines: title with the date, the number of matches, and the table head. */
  function Header(today: string, count: nat): seq<string> {
    [ "## 새로운 매칭 공고 (" + today + ")",
      "",
      "총 **" + NatToString(count) + "건**의 공고가 프로필과 매칭되었습니다.",
      "",
      "| 회사 | 포지션 | 매칭률 | 마감 | 매칭 기술 |",
      "|------|--------|--------|------|-----------|" ]
  }

  /** The scoring criteria block and the footer, after the rows. */
  const Criteria: seq<string> :=
    [ "",
      "<details>",
      "<summary>매칭 기준 안내</summary>",
      "",
      "- 직무 카테고리: 30점",
      "- 경력 조건: 20점",
      "- 위치 조건: 10점",
      "- 스킬/설명 유사도: 40점",
      "",
      "</details>",
      "",
      "---",
      "*자동 생성됨 by [Recruitment Auto](https://1916571-alt.github.io/Recruitment_Auto/)*" ]

  /** The criteria block states the four weights the matcher uses. */
  lemma CriteriaWeights()
    ensures CategoryWeight == 30.0 && Criteria[4] == "- 직무 카테고리: 30점"
    ensures ExperienceWeight == 20.0 && Criteria[5] == "- 경력 조건: 20점"
    ensures LocationWeight == 10.0 && Criteria[6] == "- 위치 조건: 10점"
    ensures EmbeddingWeight == 40.0 && Criteria[7] == "- 스킬/설명 유사도: 40점"
  {
  }

  /** The number in the header reads back as the number of matches. */
  lemma HeaderCount(today: string, count: nat)
    ensures var line := Header(today, count)[2];
            exists digits :: line == "총 **" + digits + "건**의 공고가 프로필과 매칭되었습니다." &&
                             ParseInt(digits) == Some(count as int)
  {
    var digits := NatToString(count);
    ParseIntNatToString(count);
    assert Header(today, count)[2] == "총 **" + digits + "건**의 공고가 프로필과 매칭되었습니다.";
  }

  /**
   * `format_match_comment`: the fixed no-match text when there are no matches; otherwise the
   * header, one row per match whose posting is in `jobsMap`, then the criteria and the footer,
   * joined by newlines.
   */
  method FormatMatchComment(matches: seq<MatchResult>, jobsMap: map<string, JobPosting>, today: string,
                            formatScore: real -> string) returns (comment: string)
    ensures matches == [] ==> comment == NoMatchesComment(today)
    ensures matches != [] ==>
              comment == Join(Header(today, |matches|) + Rows(matches, jobsMap, formatScore) + Criteria, "\n")
  {
    if matches == [] {
      return NoMatchesComment(today);
    }
    var lines := Header(today, |matches|);
    for i := 0 to |matches|
      invariant lines == Header(today, |matches|) + Rows(matches[..i], jobsMap, formatScore)
    {
      RowsStep(matches, i, jobsMap, formatScore);
      var m := matches[i];
      if m.jobId !in jobsMap {
        continue;
      }
      var row := FormatRow(m, jobsMap[m.jobId], formatScore);
      ConcatFacts(Header(today, |matches|), Rows(matches[..i], jobsMap, formatScore), [row]);
      lines := lines + [row];
    }
    assert matches[..|matches|] == matches;
    lines := lines + Criteria;
    comment := Join(lines, "\n");
  }

  /** One table row of the comment: the cut names, the score, the deadline and the skills. */
  method FormatRow(m: MatchResult, job: JobPosting, formatScore: real -> string) returns (row: string)
    ensures row == Row(m, job, formatScore)
  {
    var company := job.companyName;
    if |company| > 10 {
      company := company[..10] + "...";
    }
    var title := job.title;
    if |title| > 20 {
      title := title[..20] + "...";
    }
    var deadline := "상시";
    if job.deadlineText.Some? && job.deadlineText.value != "" {
      deadline := job.deadlineText.value;
    }
    var skills := Join(m.matchedSkills[..Min(3, |m.matchedSkills|)], ", ");
    if skills == "" {
      skills := "-";
    }
    row := "| [" + company + "](" + job.sourceUrl + ") | " + title + " | **" +
           formatScore(m.totalScore) + "%** | " + deadline + " | " + skills + " |";
  }

  /**
   * The comment for a non-empty list opens with the header, carries the rows (if any posting
   * is known) and always ends with the criteria block and the footer.
   */
  lemma CommentLayout(matches: seq<MatchResult>, jobsMap: map<string, JobPosting>, today: string,
                      formatScore: real -> string)
    ensures var rows := Rows(matches, jobsMap, formatScore);
            Join(Header(today, |matches|) + rows + Criteria, "\n") ==
              Join(Header(today, |matches|), "\n") +
              (if rows == [] then "" else "\n" + Join(rows, "\n")) +
              "\n" + Join(Criteria, "\n")
  {
    JoinAround(Header(today, |matches|), Rows(matches, jobsMap, formatScore), Criteria, "\n");
  }

  /** With no known posting the comment is the header directly followed by the criteria. */
  lemma {:induction false} NoKnownPostingNoRows(matches: seq<MatchResult>, jobsMap: map<string, JobPosting>,
                                                formatScore: real -> string)
    requires forall k :: 0 <= k < |matches| ==> matches[k].jobId !in jobsMap
    ensures Rows(matches, jobsMap, formatScore) == []
  {
    if matches != [] {
      NoKnownPostingNoRows(matches[..|matches| - 1], jobsMap, formatScore);
    }
  }
}
