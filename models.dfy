/** The candidate profile of src/models/profile.py. */
module Profiles {
  import opened Wrappers
  import opened Text

  /** The closed set of desired job categories. */
  datatype JobCategory = Data | Backend | Frontend | Fullstack | PM | Design

  /** The enum's string value. */
  function CategoryValue(c: JobCategory): string {
    match c
    case Data => "data"
    case Backend => "backend"
    case Frontend => "frontend"
    case Fullstack => "fullstack"
    case PM => "pm"
    case Design => "design"
  }

  /** The six values are distinct, so the value names the category. */
  lemma CategoryValueInjective(a: JobCategory, b: JobCategory)
    ensures CategoryValue(a) == CategoryValue(b) ==> a == b
  {
  }

  /**
   * A profile parsed from a GitHub issue. `embedding` is filled in by the caller before
   * matching; `createdAt` is the issue's creation time in the ISO text the parser accepted.
   */
  datatype Profile = Profile(
    id: string,
    githubUsername: string,
    email: Option<string>,
    jobCategory: JobCategory,
    experienceYears: int,
    preferredLocations: seq<string>,
    skills: seq<string>,
    certifications: seq<string>,
    introduction: Option<string>,
    issueUrl: string,
    createdAt: string,
    embedding: Option<seq<real>>)

  /** Python truthiness of `self.introduction`: present and non-empty. */
  predicate HasIntroduction(p: Profile) {
    p.introduction.Some? && p.introduction.value != ""
  }

  function CategorySegment(p: Profile): string { "직무: " + CategoryValue(p.jobCategory) }
  function YearsSegment(p: Profile): string { "경력: " + IntToString(p.experienceYears) + "년" }
  function SkillsSegment(p: Profile): string { "기술스택: " + Join(p.skills, ", ") }
  function CertificationsSegment(p: Profile): string { "자격증: " + Join(p.certifications, ", ") }
  function IntroductionSegment(p: Profile): string
    requires HasIntroduction(p)
  {
    "소개: " + p.introduction.value
  }

  /** The three segments every embedding text starts with, already joined by `" | "`. */
  function EmbeddingHead(p: Profile): string {
    CategorySegment(p) + " | " + YearsSegment(p) + " | " + SkillsSegment(p)
  }

  /**
   * `Profile.to_embedding_text`: the segments joined by `" | "`. The result is the fixed
   * head (category, years, skills), then the certifications segment exactly when there are
   * certifications, then the introduction segment, last, exactly when there is one.
   */
  function EmbeddingText(p: Profile): (r: string)
    ensures r == EmbeddingHead(p) +
                 (if p.certifications != [] then " | " + CertificationsSegment(p) else "") +
                 (if HasIntroduction(p) then " | " + IntroductionSegment(p) else "")
  {
    var head := [CategorySegment(p), YearsSegment(p), SkillsSegment(p)];
    assert Join(head, " | ") == EmbeddingHead(p) by {
      JoinSnoc([CategorySegment(p)], YearsSegment(p), " | ");
      assert [CategorySegment(p)] + [YearsSegment(p)] == [CategorySegment(p), YearsSegment(p)];
      JoinSnoc([CategorySegment(p), YearsSegment(p)], SkillsSegment(p), " | ");
      assert [CategorySegment(p), YearsSegment(p)] + [SkillsSegment(p)] == head;
    }
    var certs := if p.certifications != [] then [CertificationsSegment(p)] else [];
    var intro := if HasIntroduction(p) then [IntroductionSegment(p)] else [];
    JoinSnocOptional(head, certs, " | ");
    JoinSnocOptional(head + certs, intro, " | ");
    Join(head + certs + intro, " | ")
  }

  /** The text always opens with the category segment followed by the separator. */
  lemma EmbeddingTextStartsWithCategory(p: Profile)
    ensures var first := "직무: " + CategoryValue(p.jobCategory) + " | ";
            |first| <= |EmbeddingText(p)| && EmbeddingText(p)[..|first|] == first
  {
    var first := CategorySegment(p) + " | ";
    var r := EmbeddingText(p);
    assert r == first + (r[|first|..]);
  }
}

/** The posting shape the core reads (the posting model itself is not part of this model). */
module Postings {
  import opened Wrappers
  import opened Text

  /**
   * A scraped job posting. Optional text fields are `None` where the scraper found nothing;
   * `experienceLevel` is the `str()` rendering of the posting's experience level, when set.
   */
  datatype JobPosting = JobPosting(
    id: string,
    title: string,
    companyName: string,
    description: Option<string>,
    experienceText: Option<string>,
    experienceLevel: Option<string>,
    location: Option<string>,
    techStack: seq<string>,
    deadlineText: Option<string>,
    sourceUrl: string)

  /** Python's `x or ''` on an optional string. */
  function OrEmpty(x: Option<string>): string {
    if x.Some? then x.value else ""
  }

  /** The lower-cased `f"{job.title} {job.description or ''}"` that job keywords are looked for in. */
  function SearchText(job: JobPosting): string {
    Lower(job.title + " " + OrEmpty(job.description))
  }
}
