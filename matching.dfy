/**
 * The profile/posting matcher of src/services/matching_service.py (`ProfileMatcher`) and the
 * result records of src/models/match.py.
 *
 * Scores are exact reals. The cosine similarity of two embeddings (`calculate_score`) and
 * Python's `round(x, 1)` are opaque functions the caller passes in.
 */
module Matching {
  import opened Wrappers
  import opened Text
  import opened Profiles
  import opened Postings

  // ---------------------------------------------------------------------------
  // Result records and weights
  // ---------------------------------------------------------------------------

  /** The four score components of one match. */
  datatype ScoreBreakdown = ScoreBreakdown(
    categoryScore: real,
    experienceScore: real,
    locationScore: real,
    embeddingScore: real)
  {
    /** The rule-based subtotal: category, experience and location. */
    function RuleTotal(): real {
      categoryScore + experienceScore + locationScore
    }

    /** The unrounded sum of all four components. */
    function Total(): real {
      RuleTotal() + embeddingScore
    }
  }

  /** One match of a profile with a posting (its `matched_at` time stamp is not modelled). */
  datatype MatchResult = MatchResult(
    profileId: string,
    jobId: string,
    totalScore: real,
    scoreBreakdown: ScoreBreakdown,
    matchedSkills: seq<string>,
    missingSkills: seq<string>)

  const CategoryWeight: real := 30.0
  const ExperienceWeight: real := 20.0
  const LocationWeight: real := 10.0
  const EmbeddingWeight: real := 40.0
  const MinScoreThreshold: real := 50.0
  /** The rule subtotal below which a posting is skipped before the embedding is looked at. */
  const MinBaseScore: real := 20.0
  const TopK: nat := 10

  /** `CATEGORY_KEYWORDS`: the words that put a posting in a job category. */
  function CategoryKeywords(c: JobCategory): seq<string> {
    match c
    case Data => ["데이터 분석", "data analyst", "데이터 사이언", "ml engineer",
                  "머신러닝", "bi 분석", "데이터 엔지니어", "빅데이터", "ai"]
    case Backend => ["백엔드", "backend", "서버 개발", "java", "python", "node.js",
                     "spring", "django", "fastapi", "go", "kotlin"]
    case Frontend => ["프론트엔드", "frontend", "react", "vue", "angular", "웹 개발",
                      "퍼블리셔", "javascript", "typescript", "next.js"]
    case Fullstack => ["풀스택", "full stack", "fullstack", "웹 개발자"]
    case PM => ["기획", "pm", "po", "product", "서비스 기획", "프로덕트", "프로젝트 매니저"]
    case Design => ["디자인", "ui/ux", "ux", "프로덕트 디자이너", "그래픽", "figma"]
  }

  /** The words that make a posting fit a candidate with no experience. */
  const ExperienceMarkers: seq<string> := ["신입", "경력무관", "인턴", "entry", "junior", "주니어"]

  // ---------------------------------------------------------------------------
  // Rule scores
  // ---------------------------------------------------------------------------

  /** Some keyword of the profile's category, lower-cased, occurs in the posting's search text. */
  predicate CategoryHit(profile: Profile, job: JobPosting) {
    exists k :: k in CategoryKeywords(profile.jobCategory) && Contains(SearchText(job), Lower(k))
  }

  /** The lower-cased experience text, or `""`. */
  function ExperienceText(job: JobPosting): string {
    Lower(OrEmpty(job.experienceText))
  }

  /** The lower-cased rendering of the experience level, or `""` when there is none. */
  function ExperienceLevelText(job: JobPosting): string {
    if job.experienceLevel.Some? then Lower(job.experienceLevel.value) else ""
  }

  /** `_matches_experience`: anyone with experience fits; a newcomer only where a marker says so. */
  function MatchesExperience(years: int, job: JobPosting): bool {
    years != 0 ||
    AnyContains(ExperienceText(job), ExperienceMarkers) ||
    AnyContains(ExperienceLevelText(job), ExperienceMarkers)
  }

  /** Any non-zero years fit; zero years fit exactly when a marker occurs in the requirement or the level. */
  lemma MatchesExperienceMeaning(years: int, job: JobPosting)
    ensures years != 0 ==> MatchesExperience(years, job)
    ensures years == 0 ==>
      (MatchesExperience(years, job) <==>
         exists k :: k in ExperienceMarkers &&
                     (Contains(ExperienceText(job), k) || Contains(ExperienceLevelText(job), k)))
  {
  }

  /** `_matches_location`. */
  function MatchesLocation(preferred: seq<string>, location: Option<string>): bool {
    if preferred == [] || location.None? || location.value == "" then true
    else AnyContains(Lower(location.value), LowerAll(preferred))
  }

  /** No preference or no location fits; otherwise some preference must occur, ignoring case. */
  lemma MatchesLocationMeaning(preferred: seq<string>, location: Option<string>)
    ensures preferred == [] || location.None? || location == Some("") ==> MatchesLocation(preferred, location)
    ensures preferred != [] && location.Some? && location.value != "" ==>
      (MatchesLocation(preferred, location) <==>
         exists p :: p in preferred && Contains(Lower(location.value), Lower(p)))
  {
  }

  /** `_calculate_rule_score`: each rule contributes its full weight or nothing. */
  function RuleScore(profile: Profile, job: JobPosting): ScoreBreakdown {
    var category := AnyContains(SearchText(job), LowerAll(CategoryKeywords(profile.jobCategory)));
    var experience := MatchesExperience(profile.experienceYears, job);
    var location := MatchesLocation(profile.preferredLocations, job.location);
    ScoreBreakdown(
      if category then CategoryWeight else 0.0,
      if experience then ExperienceWeight else 0.0,
      if location then LocationWeight else 0.0,
      0.0)
  }

  /**
   * Each rule score is nothing or its full weight, and the weight exactly when its rule
   * holds; the embedding component starts at nothing.
   */
  lemma RuleScoreMeaning(profile: Profile, job: JobPosting)
    ensures var b := RuleScore(profile, job);
            (b.categoryScore == 0.0 || b.categoryScore == CategoryWeight) &&
            (b.categoryScore == CategoryWeight <==> CategoryHit(profile, job)) &&
            (b.experienceScore == 0.0 || b.experienceScore == ExperienceWeight) &&
            (b.experienceScore == ExperienceWeight <==> MatchesExperience(profile.experienceYears, job)) &&
            (b.locationScore == 0.0 || b.locationScore == LocationWeight) &&
            (b.locationScore == LocationWeight <==> MatchesLocation(profile.preferredLocations, job.location)) &&
            b.embeddingScore == 0.0
  {
    var keywords := CategoryKeywords(profile.jobCategory);
    var text := SearchText(job);
    if AnyContains(text, LowerAll(keywords)) {
      var i :| 0 <= i < |keywords| && Contains(text, LowerAll(keywords)[i]);
      assert keywords[i] in keywords;
    }
  }

  // ---------------------------------------------------------------------------
  // Embedding term
  // ---------------------------------------------------------------------------

  /** Python truthiness of `profile.embedding`: present and non-empty. */
  predicate HasEmbedding(p: Profile) {
    p.embedding.Some? && p.embedding.value != []
  }

  /**
   * The embedding component: the similarity (0-100) scaled to 0-40, when both embeddings
   * are available, and nothing otherwise.
   */
  function EmbeddingScore(profile: Profile, job: JobPosting, jobEmbeddings: map<string, seq<real>>,
                          similarity: (seq<real>, seq<real>) -> real): (e: real)
    ensures e != 0.0 ==> HasEmbedding(profile) && job.id in jobEmbeddings
    ensures HasEmbedding(profile) && job.id in jobEmbeddings ==>
              e * 5.0 == similarity(profile.embedding.value, jobEmbeddings[job.id]) * 2.0
  {
    if HasEmbedding(profile) && job.id in jobEmbeddings then
      similarity(profile.embedding.value, jobEmbeddings[job.id]) * (EmbeddingWeight / 100.0)
    else 0.0
  }

  // ---------------------------------------------------------------------------
  // Skills
  // ---------------------------------------------------------------------------

  /** `xs` is `ys` with some elements deleted: what is left keeps its order. */
  predicate IsSubsequence(xs: seq<string>, ys: seq<string>) {
    xs == [] ||
    (ys != [] && ((xs[0] == ys[0] && IsSubsequence(xs[1..], ys[1..])) || IsSubsequence(xs, ys[1..])))
  }

  /** The lower-cased skill set of a profile. */
  function LowerSet(skills: seq<string>): set<string> {
    set s | s in skills :: Lower(s)
  }

  /**
   * The tags whose lower-case form is in `known`, and the others, each part in tag order and
   * the two together exactly the tags.
   */
  function PartitionSkills(tags: seq<string>, known: set<string>): (seq<string>, seq<string>) {
    if tags == [] then ([], [])
    else
      var rest := PartitionSkills(tags[1..], known);
      if Lower(tags[0]) in known then ([tags[0]] + rest.0, rest.1)
      else (rest.0, [tags[0]] + rest.1)
  }

  /** Both parts are in tag order, together they are the tags, and they split by membership in `known`. */
  lemma {:induction false} PartitionSkillsMeaning(tags: seq<string>, known: set<string>)
    ensures var r := PartitionSkills(tags, known);
            IsSubsequence(r.0, tags) && IsSubsequence(r.1, tags) &&
            multiset(r.0) + multiset(r.1) == multiset(tags) &&
            (forall s :: s in r.0 ==> Lower(s) in known) &&
            (forall s :: s in r.1 ==> Lower(s) !in known)
  {
    if tags != [] {
      PartitionSkillsMeaning(tags[1..], known);
      HeadSplit(tags);
    }
  }

  /** `_analyze_skills`: the posting's tags split into matched and missing ones. */
  function AnalyzeSkills(profileSkills: seq<string>, jobSkills: seq<string>): (seq<string>, seq<string>) {
    PartitionSkills(jobSkills, LowerSet(profileSkills))
  }

  /**
   * The matched and missing tags are each in tag order, together they are exactly the tags,
   * and a tag is matched exactly when its lower-case form is one of the profile's
   * lower-cased skills.
   */
  lemma AnalyzeSkillsPartition(profileSkills: seq<string>, jobSkills: seq<string>)
    ensures var r := AnalyzeSkills(profileSkills, jobSkills);
            IsSubsequence(r.0, jobSkills) && IsSubsequence(r.1, jobSkills) &&
            multiset(r.0) + multiset(r.1) == multiset(jobSkills) &&
            (forall s :: s in jobSkills ==> (s in r.0 <==> Lower(s) in LowerSet(profileSkills))) &&
            (forall s :: s in jobSkills ==> (s in r.1 <==> Lower(s) !in LowerSet(profileSkills)))
  {
    var r := AnalyzeSkills(profileSkills, jobSkills);
    PartitionSkillsMeaning(jobSkills, LowerSet(profileSkills));
    forall s | s in jobSkills
      ensures s in r.0 || s in r.1
    {
      assert s in multiset(r.0) + multiset(r.1);
    }
    forall s | s in r.0 || s in r.1
      ensures s in jobSkills
    {
      assert s in multiset(jobSkills);
    }
  }

  // ---------------------------------------------------------------------------
  // One posting, and all of them
  // ---------------------------------------------------------------------------

  /**
   * What one iteration of the matching loop contributes for `job`: nothing when the rule
   * subtotal is below 20 or the full sum below 50, else its match.
   */
  function ScoreJob(profile: Profile, job: JobPosting, jobEmbeddings: map<string, seq<real>>,
                    similarity: (seq<real>, seq<real>) -> real, round1: real -> real): Option<MatchResult>
  {
    Scored(RuleScore(profile, job), profile, job, jobEmbeddings, similarity, round1)
  }

  /** The rule scores with the embedding component set when both embeddings exist. */
  function AddedEmbedding(rule: ScoreBreakdown, profile: Profile, job: JobPosting,
                          jobEmbeddings: map<string, seq<real>>,
                          similarity: (seq<real>, seq<real>) -> real): ScoreBreakdown
  {
    if HasEmbedding(profile) && job.id in jobEmbeddings then
      rule.(embeddingScore := EmbeddingScore(profile, job, jobEmbeddings, similarity))
    else rule
  }

  /** The rest of one iteration once the rule scores `rule` are known: the two gates and the match. */
  function Scored(rule: ScoreBreakdown, profile: Profile, job: JobPosting, jobEmbeddings: map<string, seq<real>>,
                  similarity: (seq<real>, seq<real>) -> real, round1: real -> real): Option<MatchResult>
  {
    if rule.RuleTotal() < MinBaseScore then None
    else
      var b := AddedEmbedding(rule, profile, job, jobEmbeddings, similarity);
      if b.Total() < MinScoreThreshold then None
      else
        var skills := AnalyzeSkills(profile.skills, job.techStack);
        Some(MatchResult(profile.id, job.id, round1(b.Total()), b, skills.0, skills.1))
  }

  /**
   * A posting yields a match only when its rule subtotal reaches 20 and its full sum 50; the
   * match names the profile and the posting, carries the rule scores and the embedding
   * component, and its total is the rounded sum.
   */
  lemma ScoreJobGates(profile: Profile, job: JobPosting, jobEmbeddings: map<string, seq<real>>,
                      similarity: (seq<real>, seq<real>) -> real, round1: real -> real)
    ensures var r := ScoreJob(profile, job, jobEmbeddings, similarity, round1);
            (RuleScore(profile, job).RuleTotal() < MinBaseScore ==> r.None?) &&
            (r.Some? ==>
              var b := r.value.scoreBreakdown;
              var rule := RuleScore(profile, job);
              r.value.profileId == profile.id && r.value.jobId == job.id &&
              b.RuleTotal() >= MinBaseScore && b.Total() >= MinScoreThreshold &&
              r.value.totalScore == round1(b.Total()) &&
              b.categoryScore == rule.categoryScore && b.experienceScore == rule.experienceScore &&
              b.locationScore == rule.locationScore &&
              b.embeddingScore == EmbeddingScore(profile, job, jobEmbeddings, similarity))
  {
  }

  /** A posting whose rule subtotal misses the base gate adds nothing to the results. */
  lemma ScoreJobBelowBase(results: seq<MatchResult>, profile: Profile, job: JobPosting,
                          jobEmbeddings: map<string, seq<real>>,
                          similarity: (seq<real>, seq<real>) -> real, round1: real -> real)
    requires RuleScore(profile, job).RuleTotal() < MinBaseScore
    ensures results + OptionToSeq(ScoreJob(profile, job, jobEmbeddings, similarity, round1)) == results
  {
  }

  /** A posting past the base gate whose full sum misses the threshold adds nothing either. */
  lemma ScoredBelowThreshold(results: seq<MatchResult>, rule: ScoreBreakdown, profile: Profile, job: JobPosting,
                             jobEmbeddings: map<string, seq<real>>,
                             similarity: (seq<real>, seq<real>) -> real, round1: real -> real)
    requires rule.RuleTotal() >= MinBaseScore
    requires AddedEmbedding(rule, profile, job, jobEmbeddings, similarity).Total() < MinScoreThreshold
    ensures results + OptionToSeq(Scored(rule, profile, job, jobEmbeddings, similarity, round1)) == results
  {
  }

  /** The match a posting adds once it passes both gates, as the loop builds it. */
  lemma ScoredKept(results: seq<MatchResult>, rule: ScoreBreakdown, profile: Profile, job: JobPosting,
                   jobEmbeddings: map<string, seq<real>>,
                   similarity: (seq<real>, seq<real>) -> real, round1: real -> real)
    requires rule.RuleTotal() >= MinBaseScore
    requires AddedEmbedding(rule, profile, job, jobEmbeddings, similarity).Total() >= MinScoreThreshold
    ensures var b := AddedEmbedding(rule, profile, job, jobEmbeddings, similarity);
            var skills := AnalyzeSkills(profile.skills, job.techStack);
            results + OptionToSeq(Scored(rule, profile, job, jobEmbeddings, similarity, round1)) ==
              results + [MatchResult(profile.id, job.id, round1(b.Total()), b, skills.0, skills.1)]
  {
  }

  /** The matches of the first `n` postings, in posting order, before sorting. */
  function Candidates(profile: Profile, jobs: seq<JobPosting>, n: nat, jobEmbeddings: map<string, seq<real>>,
                      similarity: (seq<real>, seq<real>) -> real, round1: real -> real): seq<MatchResult>
    requires n <= |jobs|
  {
    Collected(Scorer(profile, jobEmbeddings, similarity, round1), jobs, n)
  }

  /** A list of zero or one elements. */
  function OptionToSeq<T>(o: Option<T>): seq<T> {
    if o.Some? then [o.value] else []
  }

  /** The values `f` gives for the first `n` elements of `xs`, in order, skipping `None`. */
  function Collected<T, U>(f: T -> Option<U>, xs: seq<T>, n: nat): seq<U>
    requires n <= |xs|
  {
    if n == 0 then [] else Collected(f, xs, n - 1) + OptionToSeq(f(xs[n - 1]))
  }

  /** Everything collected is the value of some element. */
  lemma {:induction false} CollectedFrom<T, U>(f: T -> Option<U>, xs: seq<T>, n: nat)
    requires n <= |xs|
    ensures forall u :: u in Collected(f, xs, n) ==> exists x :: x in xs && f(x) == Some(u)
  {
    if n > 0 {
      CollectedFrom(f, xs, n - 1);
      var x := xs[n - 1];
      forall u | u in Collected(f, xs, n)
        ensures exists x :: x in xs && f(x) == Some(u)
      {
        if u !in Collected(f, xs, n - 1) {
          assert x in xs && f(x) == Some(u);
        }
      }
    }
  }

  /** Scoring as a function of the posting alone. */
  function Scorer(profile: Profile, jobEmbeddings: map<string, seq<real>>,
                  similarity: (seq<real>, seq<real>) -> real, round1: real -> real): JobPosting -> Option<MatchResult>
  {
    j => ScoreJob(profile, j, jobEmbeddings, similarity, round1)
  }

  /** Every candidate is the match of some posting of the input. */
  lemma CandidatesFromJobs(profile: Profile, jobs: seq<JobPosting>, n: nat,
                           jobEmbeddings: map<string, seq<real>>,
                           similarity: (seq<real>, seq<real>) -> real, round1: real -> real)
    requires n <= |jobs|
    ensures forall m :: m in Candidates(profile, jobs, n, jobEmbeddings, similarity, round1) ==>
              exists j :: j in jobs && ScoreJob(profile, j, jobEmbeddings, similarity, round1) == Some(m)
  {
    var f := Scorer(profile, jobEmbeddings, similarity, round1);
    CollectedFrom(f, jobs, n);
    forall m | m in Candidates(profile, jobs, n, jobEmbeddings, similarity, round1)
      ensures exists j :: j in jobs && ScoreJob(profile, j, jobEmbeddings, similarity, round1) == Some(m)
    {
      var j :| j in jobs && f(j) == Some(m);
      assert f(j) == ScoreJob(profile, j, jobEmbeddings, similarity, round1);
    }
  }

  // ---------------------------------------------------------------------------
  // Ordering: Python's stable `sort(key=total_score, reverse=True)`
  // ---------------------------------------------------------------------------

  /** Non-increasing by total score. */
  predicate SortedDesc(s: seq<MatchResult>) {
    forall i, j :: 0 <= i < j < |s| ==> s[i].totalScore >= s[j].totalScore
  }

  /** `x` placed after every leading element whose score is at least its own. */
  function Insert(s: seq<MatchResult>, x: MatchResult): (r: seq<MatchResult>)
    ensures multiset(r) == multiset(s) + multiset{x}
    ensures |r| == |s| + 1 && (r[0] == x || (s != [] && r[0] == s[0]))
  {
    if s == [] then [x]
    else if s[0].totalScore < x.totalScore then [x] + s
    else
      HeadSplit(s);
      [s[0]] + Insert(s[1..], x)
  }

  /** Inserting into a descending sequence keeps it descending. */
  lemma {:induction false} InsertSorted(s: seq<MatchResult>, x: MatchResult)
    requires SortedDesc(s)
    ensures SortedDesc(Insert(s, x))
  {
    if s != [] && s[0].totalScore >= x.totalScore {
      var rest := Insert(s[1..], x);
      InsertSorted(s[1..], x);
      InsertSkip(s, x);
      SortedCons(s[0], rest);
    }
  }

  /** A head at least as large as the first element of a descending sequence keeps it descending. */
  lemma SortedCons(y: MatchResult, rest: seq<MatchResult>)
    requires SortedDesc(rest)
    requires rest != [] ==> y.totalScore >= rest[0].totalScore
    ensures SortedDesc([y] + rest)
  {
    var t := [y] + rest;
    forall i, j | 0 <= i < j < |t|
      ensures t[i].totalScore >= t[j].totalScore
    {
      if i == 0 {
        assert t[j] == rest[j - 1];
        if j > 1 {
          assert rest[0].totalScore >= rest[j - 1].totalScore;
        }
      } else {
        assert t[i] == rest[i - 1] && t[j] == rest[j - 1];
      }
    }
  }

  /** The input sorted by descending score, equal scores in input order. */
  function SortByScore(s: seq<MatchResult>): (r: seq<MatchResult>)
    ensures multiset(r) == multiset(s)
    ensures SortedDesc(r)
  {
    if s == [] then []
    else
      LastSplit(s);
      InsertSorted(SortByScore(s[..|s| - 1]), s[|s| - 1]);
      Insert(SortByScore(s[..|s| - 1]), s[|s| - 1])
  }

  /** The elements of `s` with score `v`, in order. */
  function WithScore(s: seq<MatchResult>, v: real): seq<MatchResult> {
    if s == [] then []
    else if s[0].totalScore == v then [s[0]] + WithScore(s[1..], v)
    else WithScore(s[1..], v)
  }

  lemma {:induction false} WithScoreAppend(a: seq<MatchResult>, b: seq<MatchResult>, v: real)
    ensures WithScore(a + b, v) == WithScore(a, v) + WithScore(b, v)
  {
    if a == [] {
      assert a + b == b;
    } else {
      assert (a + b)[0] == a[0] && (a + b)[1..] == a[1..] + b;
      WithScoreAppend(a[1..], b, v);
    }
  }

  /** Nothing in `s` has a score above `bound`, so nothing has the larger score `v`. */
  lemma {:induction false} WithScoreNone(s: seq<MatchResult>, v: real, bound: real)
    requires forall k :: 0 <= k < |s| ==> s[k].totalScore <= bound
    requires bound < v
    ensures WithScore(s, v) == []
  {
    if s != [] {
      WithScoreNone(s[1..], v, bound);
    }
  }

  /** Inserting into a sorted sequence puts `x` after every element of the same score. */
  lemma {:induction false} InsertStable(s: seq<MatchResult>, x: MatchResult, v: real)
    requires SortedDesc(s)
    ensures WithScore(Insert(s, x), v) == WithScore(s, v) + WithScore([x], v)
  {
    if s == [] {
    } else if s[0].totalScore < x.totalScore {
      InsertFrontStable(s, x, v);
    } else {
      InsertStable(s[1..], x, v);
      InsertLaterStable(s, x, v);
    }
  }

  /** `x` going in front of a sorted `s` whose head scores lower: no element of `s` has its score. */
  lemma InsertFrontStable(s: seq<MatchResult>, x: MatchResult, v: real)
    requires SortedDesc(s) && s != [] && s[0].totalScore < x.totalScore
    ensures WithScore(Insert(s, x), v) == WithScore(s, v) + WithScore([x], v)
  {
    assert Insert(s, x) == [x] + s;
    WithScoreAppend([x], s, v);
    if x.totalScore == v {
      WithScoreNone(s, v, s[0].totalScore);
    }
  }

  /** `x` going past the head of `s`: the step of `InsertStable`. */
  lemma InsertLaterStable(s: seq<MatchResult>, x: MatchResult, v: real)
    requires s != [] && s[0].totalScore >= x.totalScore
    requires WithScore(Insert(s[1..], x), v) == WithScore(s[1..], v) + WithScore([x], v)
    ensures WithScore(Insert(s, x), v) == WithScore(s, v) + WithScore([x], v)
  {
    InsertSkip(s, x);
    HeadSplit(s);
    WithScoreConsAppend(s[0], Insert(s[1..], x), s[1..], WithScore([x], v), v);
  }

  /** Putting the same head in front of two sequences keeps a relation between their picks. */
  lemma WithScoreConsAppend(y: MatchResult, longer: seq<MatchResult>, shorter: seq<MatchResult>,
                            extra: seq<MatchResult>, v: real)
    requires WithScore(longer, v) == WithScore(shorter, v) + extra
    ensures WithScore([y] + longer, v) == WithScore([y] + shorter, v) + extra
  {
    WithScoreCons(y, longer, v);
    WithScoreCons(y, shorter, v);
    ConcatFacts([y], WithScore(shorter, v), extra);
    ConcatFacts(WithScore(shorter, v) + extra, [], []);
    ConcatFacts(WithScore(shorter, v), [], []);
  }

  /** `x` goes past a head that scores at least as much. */
  lemma InsertSkip(s: seq<MatchResult>, x: MatchResult)
    requires s != [] && s[0].totalScore >= x.totalScore
    ensures Insert(s, x) == [s[0]] + Insert(s[1..], x)
  {
  }

  /** Picking the matches of score `v` from `[y] + rest`. */
  lemma WithScoreCons(y: MatchResult, rest: seq<MatchResult>, v: real)
    ensures WithScore([y] + rest, v) == (if y.totalScore == v then [y] else []) + WithScore(rest, v)
  {
    assert ([y] + rest)[0] == y && ([y] + rest)[1..] == rest;
  }

  /** The sort is stable: the elements of each score come out in the order they went in. */
  lemma {:induction false} SortByScoreStable(s: seq<MatchResult>, v: real)
    ensures WithScore(SortByScore(s), v) == WithScore(s, v)
  {
    if s != [] {
      var init := s[..|s| - 1];
      SortByScoreStable(init, v);
      assert SortByScore(s) == Insert(SortByScore(init), s[|s| - 1]);
      InsertKeepsOrder(SortByScore(init), init, s[|s| - 1], v);
      LastSplit(s);
    }
  }

  /** Inserting `x` into a sorted list that keeps the order of `init` keeps the order of `init + [x]`. */
  lemma InsertKeepsOrder(sorted: seq<MatchResult>, init: seq<MatchResult>, x: MatchResult, v: real)
    requires SortedDesc(sorted) && WithScore(sorted, v) == WithScore(init, v)
    ensures WithScore(Insert(sorted, x), v) == WithScore(init + [x], v)
  {
    InsertStable(sorted, x, v);
    WithScoreAppend(init, [x], v);
  }

  /** `results[:TOP_K_RESULTS]`. */
  function TopResults(s: seq<MatchResult>): (r: seq<MatchResult>)
    ensures |r| == if |s| <= TopK then |s| else TopK
    ensures |s| <= TopK ==> r == s
    ensures r == s[..|r|]
  {
    if |s| <= TopK then s else s[..TopK]
  }

  // ---------------------------------------------------------------------------
  // The matching loop
  // ---------------------------------------------------------------------------

  /**
   * The body of the matching loop for one posting: the rule scores, the gate at 20 (where
   * the loop moves on to the next posting), the embedding term when both embeddings exist,
   * then the threshold at 50, the skill split and the append to `results`.
   */
  method MatchOne(results: seq<MatchResult>, profile: Profile, job: JobPosting,
                  jobEmbeddings: map<string, seq<real>>,
                  similarity: (seq<real>, seq<real>) -> real, round1: real -> real)
    returns (extended: seq<MatchResult>)
    ensures extended == results + OptionToSeq(ScoreJob(profile, job, jobEmbeddings, similarity, round1))
  {
    var breakdown := RuleScore(profile, job);
    var baseScore := breakdown.categoryScore + breakdown.experienceScore + breakdown.locationScore;
    if baseScore < MinBaseScore {
      ScoreJobBelowBase(results, profile, job, jobEmbeddings, similarity, round1);
      extended := results;
    } else {
      extended := MatchAboveBase(results, profile, job, breakdown, jobEmbeddings, similarity, round1);
    }
  }

  /** The rest of one loop step, once the rule subtotal has reached the base gate. */
  method MatchAboveBase(results: seq<MatchResult>, profile: Profile, job: JobPosting, rule: ScoreBreakdown,
                        jobEmbeddings: map<string, seq<real>>,
                        similarity: (seq<real>, seq<real>) -> real, round1: real -> real)
    returns (extended: seq<MatchResult>)
    requires rule.RuleTotal() >= MinBaseScore
    ensures extended == results + OptionToSeq(Scored(rule, profile, job, jobEmbeddings, similarity, round1))
  {
    var breakdown := AddEmbedding(rule, profile, job, jobEmbeddings, similarity);
    var totalScore := breakdown.categoryScore + breakdown.experienceScore +
                      breakdown.locationScore + breakdown.embeddingScore;
    assert totalScore == breakdown.Total();
    extended := results;
    if totalScore >= MinScoreThreshold {
      var skills := AnalyzeSkills(profile.skills, job.techStack);
      ScoredKept(results, rule, profile, job, jobEmbeddings, similarity, round1);
      extended := extended + [MatchResult(profile.id, job.id, round1(totalScore), breakdown, skills.0, skills.1)];
    } else {
      ScoredBelowThreshold(results, rule, profile, job, jobEmbeddings, similarity, round1);
    }
  }

  /** The embedding term of one posting, set on the rule breakdown when both embeddings exist. */
  method AddEmbedding(rule: ScoreBreakdown, profile: Profile, job: JobPosting,
                      jobEmbeddings: map<string, seq<real>>, similarity: (seq<real>, seq<real>) -> real)
    returns (breakdown: ScoreBreakdown)
    ensures breakdown == AddedEmbedding(rule, profile, job, jobEmbeddings, similarity)
  {
    breakdown := rule;
    if HasEmbedding(profile) && job.id in jobEmbeddings {
      var rawSimilarity := similarity(profile.embedding.value, jobEmbeddings[job.id]);
      var embeddingScore := rawSimilarity * (EmbeddingWeight / 100.0);
      breakdown := breakdown.(embeddingScore := embeddingScore);
    }
  }

  /** `ProfileMatcher.match_profile_to_jobs`. */
  method MatchProfileToJobs(profile: Profile, jobs: seq<JobPosting>, jobEmbeddings: map<string, seq<real>>,
                            similarity: (seq<real>, seq<real>) -> real, round1: real -> real)
    returns (r: seq<MatchResult>)
    ensures r == TopResults(SortByScore(Candidates(profile, jobs, |jobs|, jobEmbeddings, similarity, round1)))
    ensures |r| <= TopK && SortedDesc(r)
  {
    var results := CollectMatches(profile, jobs, jobEmbeddings, similarity, round1);
    var sorted := SortByScore(results);
    r := if |sorted| <= TopK then sorted else sorted[..TopK];
    assert r == TopResults(sorted);
    PrefixSorted(sorted, |r|);
  }

  /** A prefix of a descending sequence is descending. */
  lemma PrefixSorted(s: seq<MatchResult>, n: nat)
    requires SortedDesc(s) && n <= |s|
    ensures SortedDesc(s[..n])
  {
    var p := s[..n];
    forall i, j | 0 <= i < j < |p|
      ensures p[i].totalScore >= p[j].totalScore
    {
      assert p[i] == s[i] && p[j] == s[j];
    }
  }

  /** The loop of `match_profile_to_jobs`: every posting in order, each appending at most one match. */
  method CollectMatches(profile: Profile, jobs: seq<JobPosting>, jobEmbeddings: map<string, seq<real>>,
                        similarity: (seq<real>, seq<real>) -> real, round1: real -> real)
    returns (results: seq<MatchResult>)
    ensures results == Candidates(profile, jobs, |jobs|, jobEmbeddings, similarity, round1)
  {
    results := [];
    for i := 0 to |jobs|
      invariant results == Candidates(profile, jobs, i, jobEmbeddings, similarity, round1)
    {
      results := MatchOne(results, profile, jobs[i], jobEmbeddings, similarity, round1);
    }
  }

  /** What every returned match satisfies: it comes from an input posting and passed both gates. */
  lemma ReturnedMatches(profile: Profile, jobs: seq<JobPosting>, jobEmbeddings: map<string, seq<real>>,
                        similarity: (seq<real>, seq<real>) -> real, round1: real -> real)
    ensures var r := TopResults(SortByScore(Candidates(profile, jobs, |jobs|, jobEmbeddings, similarity, round1)));
            forall m :: m in r ==>
              m.profileId == profile.id && (exists j :: j in jobs && j.id == m.jobId) &&
              m.scoreBreakdown.RuleTotal() >= MinBaseScore && m.scoreBreakdown.Total() >= MinScoreThreshold
  {
    var c := Candidates(profile, jobs, |jobs|, jobEmbeddings, similarity, round1);
    var r := TopResults(SortByScore(c));
    TopResultsFrom(c);
    CandidatesFromJobs(profile, jobs, |jobs|, jobEmbeddings, similarity, round1);
    forall m | m in r
      ensures m.profileId == profile.id && (exists j :: j in jobs && j.id == m.jobId) &&
              m.scoreBreakdown.RuleTotal() >= MinBaseScore && m.scoreBreakdown.Total() >= MinScoreThreshold
    {
      var j :| j in jobs && ScoreJob(profile, j, jobEmbeddings, similarity, round1) == Some(m);
      ScoreJobGates(profile, j, jobEmbeddings, similarity, round1);
    }
  }

  /** Every result kept after sorting and cutting is one of the unsorted results. */
  lemma TopResultsFrom(c: seq<MatchResult>)
    ensures forall m :: m in TopResults(SortByScore(c)) ==> m in c
  {
    forall m | m in TopResults(SortByScore(c))
      ensures m in c
    {
      assert m in multiset(SortByScore(c));
    }
  }

  // ---------------------------------------------------------------------------
  // Consequences of the weights
  // ---------------------------------------------------------------------------

  /**
   * Without an embedding term no match can reach 50 on location alone: every match then has
   * the full category and experience scores.
   */
  lemma WithoutEmbeddingRulesDecide(profile: Profile, job: JobPosting, jobEmbeddings: map<string, seq<real>>,
                                    similarity: (seq<real>, seq<real>) -> real, round1: real -> real)
    requires EmbeddingScore(profile, job, jobEmbeddings, similarity) == 0.0
    ensures var r := ScoreJob(profile, job, jobEmbeddings, similarity, round1);
            r.Some? ==> r.value.scoreBreakdown.categoryScore == CategoryWeight &&
                        r.value.scoreBreakdown.experienceScore == ExperienceWeight
  {
  }

  /** A profile without an embedding only ever gets matches with full category and experience scores. */
  lemma NoEmbeddingMatchesNeedCategoryAndExperience(profile: Profile, jobs: seq<JobPosting>,
                                                    jobEmbeddings: map<string, seq<real>>,
                                                    similarity: (seq<real>, seq<real>) -> real,
                                                    round1: real -> real)
    requires !HasEmbedding(profile)
    ensures forall m :: m in Candidates(profile, jobs, |jobs|, jobEmbeddings, similarity, round1) ==>
              m.scoreBreakdown.categoryScore == CategoryWeight &&
              m.scoreBreakdown.experienceScore == ExperienceWeight
  {
    CandidatesFromJobs(profile, jobs, |jobs|, jobEmbeddings, similarity, round1);
    forall m | m in Candidates(profile, jobs, |jobs|, jobEmbeddings, similarity, round1)
      ensures m.scoreBreakdown.categoryScore == CategoryWeight &&
              m.scoreBreakdown.experienceScore == ExperienceWeight
    {
      var j :| j in jobs && ScoreJob(profile, j, jobEmbeddings, similarity, round1) == Some(m);
      WithoutEmbeddingRulesDecide(profile, j, jobEmbeddings, similarity, round1);
    }
  }
}
