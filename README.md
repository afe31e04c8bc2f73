# Recruitment Auto, modelled in Dafny

Recruitment Auto scrapes entry-level job postings and matches them against job-seeker
profiles. Each profile is a GitHub issue filled in from an issue template. The system
then posts the day's matches as a comment on that issue. This project models the core of
that pipeline and proves properties of it:

- **the crawler filter** (`src/crawlers/base.py`) decides whether a scraped posting is kept.
  Its title must not name a seniority word. Its title or description must name a wanted
  job. Its experience requirement must be open to newcomers, judged by entry markers, five
  "N years" regular expressions and a bare "경력" rule;
- **the matcher** (`src/services/matching_service.py`) scores a profile against every
  posting. It scores category keywords (30), experience (20) and location (10), skips
  postings whose rule subtotal is below 20, and adds the embedding similarity (40). It
  keeps totals of at least 50, splits the posting's tags into matched and missing skills,
  sorts stably by descending score and keeps the top ten;
- **the embedding cache** (`src/services/embedding_service.py`) is a memo table keyed by a
  fingerprint of the text. It sits in front of a sentence-transformer model that is loaded
  on first use, for single texts and for batches;
- **the issue parser** (`src/services/github_service.py`) splits an issue body into
  `### label` sections. It maps labels to field keys, reads multi-line and comma-separated
  fields, and builds a `Profile` or rejects the issue;
- **the profile text** (`src/models/profile.py`) is the text a profile is embedded from;
- **the match comment** (`src/notifiers/github_notifier.py`) is the Markdown table posted
  on the profile's issue.

Files:

- `wrappers.dfy`: `Option`.
- `text.dfy`: the Python `str` operations the code uses, with their laws.
- `models.dfy`: `Profiles` and the posting shape `Postings`.
- `crawler_filter.dfy`
- `matching.dfy`
- `embedding.dfy`: the cache is a class whose methods update its map and load flag.
- `github_parser.dfy`
- `notifier.dfy`

Where the source updates state in a loop, the model does too. Each such method is proved
against a function that states the result, and the properties are proved about those
functions.

Where the system's design description and the code disagree, the model follows the code:

- A batch sends every uncached occurrence of a text to the model, duplicates included. The
  design description speaks of de-duplicating the batch.
  `Embedding.MissesKeepDuplicates` states what the code does.
- The description says the smallest number over all career patterns is compared with 1.
  The code instead looks at each pattern's first match only, going pattern by pattern. It
  rejects at the first match whose own smallest capture is at least 1.
- Postings whose text says "경력 무관"-style phrases are kept only through the listed entry
  markers. A requirement text with no marker is dropped when a pattern's first match asks
  for at least one year: `CrawlerFilter.ThreeYearsOrMoreRejected` shows this for
  "3년 이상", and `CrawlerFilter.RangeFromOneRejected` for "1~3년". A later match is
  never looked at: `CrawlerFilter.FirstMatchOnlyKept` shows that "0년 이상, 3년 이상 우대"
  is kept, because its first years-or-more match captures 0.

## Model

The functions below define what the source computes. They carry no contract of their
own; the lemma and method rows in the table state their properties, and each row's
source cell gives the lines.

- `CrawlerFilter.Accepts`: `matches_filter` (src/crawlers/base.py); see `MatchesFilter`.
- `CrawlerFilter.EntryLevelFriendly`: `_is_entry_level_friendly`; see `IsEntryLevelFriendly`
  and the lemmas after it.
- `Matching.RuleScore`: `_calculate_rule_score` (src/services/matching_service.py); see
  `RuleScoreMeaning`.
- `Matching.MatchesExperience` and `Matching.MatchesLocation`: `_matches_experience` and
  `_matches_location`; see `MatchesExperienceMeaning` and `MatchesLocationMeaning`.
- `Matching.AnalyzeSkills`: `_analyze_skills`; see `AnalyzeSkillsPartition`.
- `Matching.ScoreJob`: the body of the loop in `match_profile_to_jobs`; see `ScoreJobGates`
  and the lemmas after it.
- `GitHubParser.ParseMultiline` and `GitHubParser.ParseCommaSeparated`: `_parse_multiline`
  and `_parse_comma_separated` (src/services/github_service.py); see the `*Join`, `*Items`,
  `*Append` and `*Shape` rows.
- `GitHubParser.Sections` and `GitHubParser.Fields`: the `re.findall` and the dictionary
  of `_parse_issue_body`; see `SectionsRender`, `FieldsDomain` and `FieldsLastWins`.
- `Notifier.Header`, `Notifier.Row` and `Notifier.Rows`: the lines `format_match_comment`
  builds (src/notifiers/github_notifier.py); see `FormatMatchComment`, `CommentLayout`,
  `HeaderCount` and `RowsAreListed`.
- `Text.ParseInt`: Python's `int()` on a string; see `ParseIntToString`.
- `Text.Lower`: `str.lower()` on ASCII letters; see `LowerIdentity` and `ContainsOfLower`.

| member | source | states |
|---|---|---|
| CrawlerFilter.MatchesFilter | src/crawlers/base.py:75-96 | The loops decide exactly `Accepts`. An excluded title word or a missing job keyword rejects. Every accepted posting has an entry-level-friendly requirement. |
| CrawlerFilter.IsEntryLevelFriendly | src/crawlers/base.py:98-140 | The method decides exactly `EntryLevelFriendly`. A missing or empty requirement is accepted, and so is one with an entry marker. |
| CrawlerFilter.FindKeyword | src/crawlers/base.py:107-110 | The keyword loop returns true exactly when some keyword occurs in the text. |
| CrawlerFilter.FindCareerBar | src/crawlers/base.py:122-132 | The pattern loop rejects exactly when some pattern's first match captures a minimum of at least one. |
| CrawlerFilter.SearchFromLeftmost | src/crawlers/base.py:123 | The scanner behaves as `re.search`. It finds a match exactly when one starts at or after the index, and it returns the leftmost. |
| CrawlerFilter.MatchNeeds | src/crawlers/base.py:114-120 | A match of each pattern needs "경력", "이상", '~' or '-' in the text, and every pattern but the first needs "년". |
| CrawlerFilter.NoMatchWithoutYearWord | src/crawlers/base.py:114-124 | Without "년" and without "경력", no pattern has a first match. |
| CrawlerFilter.NoMatchWithoutNeeded | src/crawlers/base.py:114-124 | A pattern whose needed text is absent has no first match. |
| CrawlerFilter.NoMatchWithoutDigitOrCareer | src/crawlers/base.py:114-124 | Without a digit and without "경력", no pattern matches. |
| CrawlerFilter.NormaliseAddsNoWord | src/crawlers/base.py:104 | A word without lower-case ASCII letters found in the normalised text was already in the original. |
| CrawlerFilter.NormaliseAddsNoYears | src/crawlers/base.py:104 | Lower-casing and stripping bring in no digit and no "경력". |
| CrawlerFilter.NoYearsNoBar | src/crawlers/base.py:112-137 | Without a digit or "경력", neither rejection rule applies. |
| CrawlerFilter.NoYearsAccepted | src/crawlers/base.py:98-140 | A requirement with no digit and no "경력" is always accepted. |
| CrawlerFilter.NoYearWordAccepted | src/crawlers/base.py:98-140 | A requirement with neither "년" nor "경력" is always accepted, whatever numbers it carries. |
| CrawlerFilter.HeadcountAccepted | src/crawlers/base.py:98-140 | "3명 채용" is entry-level friendly: it has a digit but no "년". |
| CrawlerFilter.AcceptedWithoutBar | src/crawlers/base.py:122-140 | A normalised text that no pattern rejects and that lacks "경력" is accepted. |
| CrawlerFilter.NoEntryMarkerByFirstChars | src/crawlers/base.py:107-110 | A text without the markers' first characters has no entry marker. |
| CrawlerFilter.PatternRuleRejects | src/crawlers/base.py:122-132 | With no entry marker, a rejecting pattern drops the posting. |
| CrawlerFilter.TildeRangeOneToThree | src/crawlers/base.py:117 | The range pattern reads "1~3년" as 1 and 3. |
| CrawlerFilter.TildeRangeRejects | src/crawlers/base.py:117-132 | The range pattern's non-empty captures for "1~3년" have minimum 1, so that pattern rejects. |
| CrawlerFilter.RangeFromOneRejected | src/crawlers/base.py:114-132 | "1~3년" is not entry-level friendly. |
| CrawlerFilter.ThreeYearsOrMoreMatch | src/crawlers/base.py:116 | "3년 이상" matches the years-or-more pattern with capture 3. |
| CrawlerFilter.ThreeYearsOrMoreRejects | src/crawlers/base.py:116-132 | The years-or-more pattern rejects "3년 이상". |
| CrawlerFilter.ThreeYearsOrMoreRejected | src/crawlers/base.py:98-132 | "3년 이상" is not entry-level friendly. |
| CrawlerFilter.YearsOrMoreAtStart | src/crawlers/base.py:116-123 | A text that opens with a digit, "년", a space and "이상" has its first years-or-more match there, capturing that digit. |
| CrawlerFilter.FirstOfTwoYearsMatch | src/crawlers/base.py:116-123 | In "0년 이상, 3년 이상 우대" the first years-or-more match captures 0. |
| CrawlerFilter.FirstOfTwoYearsOthersMiss | src/crawlers/base.py:115-123 | The other four patterns do not match "0년 이상, 3년 이상 우대". |
| CrawlerFilter.FirstOfTwoYearsNoRejection | src/crawlers/base.py:122-132 | No pattern rejects "0년 이상, 3년 이상 우대": only the first match of each is looked at. |
| CrawlerFilter.FirstMatchOnlyKept | src/crawlers/base.py:98-140 | "0년 이상, 3년 이상 우대" is entry-level friendly, although it contains "3년 이상". |
| CrawlerFilter.ZeroYearsOrMoreMatch | src/crawlers/base.py:116 | "0년 이상" matches the years-or-more pattern with capture 0. |
| CrawlerFilter.ZeroYearsOrMoreOthersMiss | src/crawlers/base.py:115-119 | The other four patterns do not match "0년 이상". |
| CrawlerFilter.ZeroYearsOrMoreNoRejection | src/crawlers/base.py:122-132 | No career pattern rejects "0년 이상". |
| CrawlerFilter.ZeroYearsOrMoreAccepted | src/crawlers/base.py:98-140 | "0년 이상" is entry-level friendly. |
| CrawlerFilter.EntryOrCareerAccepted | src/crawlers/base.py:107-110 | "신입/경력" is kept by its entry marker. |
| CrawlerFilter.NoPatternRejects | src/crawlers/base.py:122-132 | If none of the five patterns rejects, no career bar is found. |
| CrawlerFilter.NormaliseFixed | src/crawlers/base.py:104 | A lower-case, stripped text is unchanged by normalisation. |
| CrawlerFilter.SkipDigits | src/crawlers/base.py:115-119 | `\d+` takes the whole run of digits, and the next character is no digit. |
| CrawlerFilter.SkipSpaces | src/crawlers/base.py:115-119 | `\s*` takes the whole run of whitespace, and the next character is no space. |
| CrawlerFilter.MatchAt | src/crawlers/base.py:114-120 | A match captures at least one number. It starts with a digit, or with "경력" for the first pattern. |
| CrawlerFilter.RangeAt | src/crawlers/base.py:117-118 | A range match captures two numbers and starts at a digit. |
| CrawlerFilter.YearsThenAt | src/crawlers/base.py:116-119 | A years match captures one number and starts at a digit. |
| CrawlerFilter.FirstHitLeftmost | src/crawlers/base.py:123 | A left-to-right scan over candidate positions finds a value exactly when some position has one, and it returns the leftmost. |
| CrawlerFilter.Min | src/crawlers/base.py:128 | `min(years)` is an element of the list and at most every element. |
| Matching.RuleScoreMeaning | src/services/matching_service.py:142-165 | Each rule score is 0 or its full weight. It is the weight exactly when its rule holds. The embedding term starts at 0. |
| Matching.MatchesExperienceMeaning | src/services/matching_service.py:167-179 | Any non-zero years match. Zero years match exactly when an entry marker occurs in the experience text or level. |
| Matching.MatchesLocationMeaning | src/services/matching_service.py:181-191 | An empty preference or a missing or empty location matches. Otherwise the location must contain some preference, case-insensitively. |
| Matching.EmbeddingScore | src/services/matching_service.py:105-113 | The term is non-zero only with both embeddings. It is then 40% of the similarity. |
| Matching.AnalyzeSkillsPartition | src/services/matching_service.py:193-205 | Matched and missing tags are each in tag order and together are the tags. A tag is matched exactly when its lower-case form is among the profile's lower-cased skills. |
| Matching.PartitionSkillsMeaning | src/services/matching_service.py:199-203 | The two lists are subsequences of the tags and their multisets add up to the tags. Every matched tag's lower-case form is a known skill, and no missing tag's is. |
| Matching.ScoreJobGates | src/services/matching_service.py:92-136 | A posting yields a match only when the rule subtotal is at least 20 and the full sum at least 50. The match names the profile and posting, keeps the rule scores and the embedding term, and totals the rounded sum. |
| Matching.ScoreJobBelowBase | src/services/matching_service.py:96-103 | Below the base gate, the loop adds nothing. |
| Matching.ScoredBelowThreshold | src/services/matching_service.py:115-122 | Past the base gate but below the threshold of 50, the loop adds nothing. |
| Matching.ScoredKept | src/services/matching_service.py:122-136 | Past both gates, the loop adds exactly one match: the profile and posting ids, the rounded total, the breakdown with its embedding term, and the matched and missing skills. |
| Matching.MatchOne | src/services/matching_service.py:92-136 | One loop step appends exactly this posting's match, if any. |
| Matching.MatchAboveBase | src/services/matching_service.py:105-136 | After the base gate, the step appends exactly this posting's match, if any. |
| Matching.AddEmbedding | src/services/matching_service.py:105-113 | The breakdown gains the embedding term exactly when the profile and the posting both have an embedding, and it is otherwise unchanged. |
| Matching.CollectMatches | src/services/matching_service.py:90-136 | The loop yields exactly the matches of all postings, in posting order. |
| Matching.MatchProfileToJobs | src/services/matching_service.py:74-140 | The result is the top ten of the stably sorted candidates. It has at most ten entries and is in descending order. |
| Matching.CandidatesFromJobs | src/services/matching_service.py:90-136 | Every candidate is the match of some input posting. |
| Matching.TopResultsFrom | src/services/matching_service.py:139-140 | Every returned match is one of the candidates. |
| Matching.ReturnedMatches | src/services/matching_service.py:74-140 | Every returned match names the profile and some input posting, and passed both gates. |
| Matching.Insert | src/services/matching_service.py:139 | Insertion adds exactly the element to the multiset, and the new head is the element or the old head. |
| Matching.InsertSorted | src/services/matching_service.py:139 | Insertion into a descending list keeps it descending. |
| Matching.InsertKeepsOrder | src/services/matching_service.py:139 | Inserting into a sorted list keeps each score's matches in the order of the unsorted input with the element appended. |
| Matching.SortByScore | src/services/matching_service.py:139 | The sort is a permutation and is descending. |
| Matching.SortByScoreStable | src/services/matching_service.py:139 | The sort is stable: the matches of each score keep their input order. |
| Matching.InsertStable | src/services/matching_service.py:139 | Insertion places the element after all earlier elements of the same score. |
| Matching.WithScoreAppend | src/services/matching_service.py:139 | Picking the matches of one score distributes over concatenation. |
| Matching.TopResults | src/services/matching_service.py:140 | `[:10]` is the prefix of length ten, or the whole list when it has ten elements or fewer. |
| Matching.WithoutEmbeddingRulesDecide | src/services/matching_service.py:115-122 | Without an embedding term, a match needs both the category and the experience score. |
| Matching.NoEmbeddingMatchesNeedCategoryAndExperience | src/services/matching_service.py:74-140 | For a profile without an embedding, every match has full category and experience scores. |
| Profiles.EmbeddingText | src/models/profile.py:58-69 | The text is the category, years and skills segments. The certifications segment follows exactly when there are certifications, and the introduction segment last exactly when there is one. |
| Profiles.EmbeddingTextStartsWithCategory | src/models/profile.py:60-61 | The text opens with "직무: <category>" and the separator. |
| Profiles.CategoryValueInjective | src/models/profile.py:14-21 | Distinct categories have distinct values. |
| Embedding.EmbeddingCache.constructor | src/services/embedding_service.py:28-33 | The cache starts empty, with no model and no calls. |
| Embedding.EmbeddingCache.LoadModel | src/services/embedding_service.py:35-42 | The model is loaded on first access and never again. The cache is untouched. |
| Embedding.EmbeddingCache.Embed | src/services/embedding_service.py:48-60 | On a hit, the cached vector is returned and nothing changes. On a miss, the model encodes the text once, the result is stored under its key and returned, and the model is loaded. |
| Embedding.EmbeddingCache.EmbedTwice | src/services/embedding_service.py:48-60 | Two `embed`s of one text return the same vector. The model is called at most once: not at all for a cached text, and once on that text otherwise. |
| Embedding.EmbeddingCache.EmbedBatch | src/services/embedding_service.py:62-90 | Empty input gives an empty result with no change. Otherwise the model is called once on exactly the uncached texts (or not at all), the cache gains their vectors, and the result equals `BatchResult`. |
| Embedding.EmbeddingCache.EmbedNonEmpty | src/services/embedding_service.py:67-90 | This covers the non-empty batch, with the same outcome as `EmbedBatch`. |
| Embedding.EmbeddingCache.LookUp | src/services/embedding_service.py:67-78 | The first pass yields cached vectors, the miss positions and the miss texts. |
| Embedding.EmbeddingCache.StoreMisses | src/services/embedding_service.py:85-88 | The second pass stores each new vector under its text's key and fills its position. |
| Embedding.BatchOutcome | src/services/embedding_service.py:62-90 | Every position holds a vector. Hits hold their cached vector, and miss j holds the model's j-th vector. Every key is cached afterwards, and old entries are kept. |
| Embedding.MissIndicesMeaning | src/services/embedding_service.py:72-78 | The miss positions are strictly increasing and uncached. They hold the miss texts, and they include every uncached position. |
| Embedding.MissPositions | src/services/embedding_service.py:72-78 | Every miss position is in range and uncached, the positions are strictly increasing, and every uncached position is among them. |
| Embedding.BatchResultOutcome | src/services/embedding_service.py:70-88 | Every result position holds a vector: a hit holds its cached vector, and miss j holds the model's j-th vector. |
| Embedding.BatchStoreOutcome | src/services/embedding_service.py:85-88 | After the store every text's key is cached, and every earlier entry is kept. |
| Embedding.MissBounds | src/services/embedding_service.py:72-78 | The two miss lists have equal length, and every position is in range. |
| Embedding.MissesEmptyIffAllCached | src/services/embedding_service.py:81 | The model is called exactly when some text is uncached. |
| Embedding.MissesKeepDuplicates | src/services/embedding_service.py:72-78 | An uncached text given twice is sent twice: there is no de-duplication. |
| Embedding.StoreKeepsCached | src/services/embedding_service.py:85-88 | Writing uncached keys keeps every cached entry. |
| Embedding.StoreCovers | src/services/embedding_service.py:85-88 | Every written key is present, and no other key is added. |
| Embedding.Fill | src/services/embedding_service.py:70-88 | Filling keeps the result length. |
| Embedding.FillMeaning | src/services/embedding_service.py:85-88 | The listed positions get their vectors, and the others are unchanged. |
| GitHubParser.LabelToKey | src/services/github_service.py:132-144 | Template labels map to their fixed keys. Any other label is lower-cased with spaces turned into underscores, one character for one. |
| GitHubParser.UnknownLabelKey | src/services/github_service.py:144 | The key of an unknown label has no space and no capital. |
| GitHubParser.ParseMultilineShape | src/services/github_service.py:146-151 | Empty text gives no items. Otherwise there are at most one more items than newlines, and each item is non-empty, has no newline, and starts with neither '-' nor a space. |
| GitHubParser.ParseMultilineJoin | src/services/github_service.py:146-151 | Clean items written one per line read back unchanged. |
| GitHubParser.ParseMultilineItems | src/services/github_service.py:146-151 | The empty-text guard gives the same result as cleaning and filtering the one empty line. |
| GitHubParser.CleanLinesAppend | src/services/github_service.py:150 | Cleaning works line by line. |
| GitHubParser.ParseMultilineAppend | src/services/github_service.py:146-151 | For two texts on separate lines, the items are the first text's items followed by the second's. |
| GitHubParser.ParseMultilineLine | src/services/github_service.py:146-151 | A single line gives its cleaned form as the one item, or nothing when cleaning leaves nothing. |
| GitHubParser.CleanLines | src/services/github_service.py:150 | Each line is stripped and has its leading dashes and spaces removed. |
| GitHubParser.CleanLineChars | src/services/github_service.py:150 | Cleaning adds no character. |
| GitHubParser.ParseCommaSeparatedShape | src/services/github_service.py:153-158 | Empty text gives no items. Otherwise there are at most one more items than commas, and each item is non-empty, comma-free and stripped. |
| GitHubParser.ParseCommaSeparatedJoin | src/services/github_service.py:153-158 | Clean items written as "a, b, c" read back unchanged. |
| GitHubParser.ParseCommaSeparatedItems | src/services/github_service.py:153-158 | The empty-text guard gives the same result as stripping and filtering the one empty piece. |
| GitHubParser.StripAllAppend | src/services/github_service.py:157 | Stripping works piece by piece. |
| GitHubParser.ParseCommaSeparatedAppend | src/services/github_service.py:153-158 | For two texts joined by a comma, the items are the first text's items followed by the second's. |
| GitHubParser.ParseCommaSeparatedPiece | src/services/github_service.py:153-158 | A single comma-free piece gives its stripped form as the one item, or nothing when it is blank. |
| GitHubParser.CommaPieces | src/services/github_service.py:156-157 | Splitting "a, b, c" at commas and stripping each piece gives the items back. |
| GitHubParser.StripPieces | src/services/github_service.py:157 | Stripping the pieces after the first comma removes the space that ", " put in. |
| GitHubParser.SectionAt | src/services/github_service.py:123 | A section match ends after its start, inside the body. |
| GitHubParser.SectionsRender | src/services/github_service.py:122-124 | A body rendered from well-formed sections parses back into exactly those sections. |
| GitHubParser.RenderStartsWithHeader | src/services/github_service.py:123 | A rendered non-empty body starts with "### ". |
| GitHubParser.SectionsSkipNewline | src/services/github_service.py:124 | `findall` moves past a newline where no section starts. |
| GitHubParser.SectionsStep | src/services/github_service.py:124 | `findall` resumes at the end of a match. |
| GitHubParser.SectionsRenderStep | src/services/github_service.py:122-124 | Parsing a rendered body yields its first section and then the sections of the rest. |
| GitHubParser.BlockLabelEnd | src/services/github_service.py:123 | In a rendered section the header is at the start, and the label ends at the first blank line. |
| GitHubParser.ValueEnd | src/services/github_service.py:123 | A value with no header inside runs to the next section header, or to the end of the body. |
| GitHubParser.BlockMatch | src/services/github_service.py:123 | A rendered section followed by a header or the end is matched whole. |
| GitHubParser.FieldsDomain | src/services/github_service.py:126-128 | A key is present exactly when some section fills it. |
| GitHubParser.FieldsLastWins | src/services/github_service.py:126-128 | A key holds the stripped value of the last section that fills it. |
| GitHubParser.AssignDomain | src/services/github_service.py:126-128 | A key is in the map exactly when some entry has it. |
| GitHubParser.AssignLastWins | src/services/github_service.py:126-128 | Later entries overwrite earlier ones. |
| GitHubParser.ParseIssueBody | src/services/github_service.py:118-130 | The loop builds exactly the field map of the body's sections. |
| GitHubParser.NonBlank | src/services/github_service.py:102-108 | `data.get(k) or None` is present exactly for a non-empty field and then holds it. |
| GitHubParser.CategoryOf | src/services/github_service.py:18-91 | A template choice maps to its category, and anything else to `Data`. |
| GitHubParser.YearsOf | src/services/github_service.py:94-97 | A missing field gives 0. Otherwise the result is `int()` of the field, or 0 where `int()` fails. |
| GitHubParser.ParseIssueToProfile | src/services/github_service.py:68-116 | A profile comes back exactly when the body is not null, the number and URL exist, the username is non-empty, and the creation time parses. Every profile field is then the parsed value. |
| GitHubParser.ProfileIdIsNumber | src/services/github_service.py:100 | The profile id reads back as the issue number. |
| Notifier.FormatMatchComment | src/notifiers/github_notifier.py:31-96 | No matches give the fixed no-match text with the date. Otherwise the result is the header, one row per match with a known posting, then the criteria and footer, joined by newlines. |
| Notifier.FormatRow | src/notifiers/github_notifier.py:62-78 | The loop body builds exactly the table row of a match and its posting. |
| Notifier.RowsStep | src/notifiers/github_notifier.py:57-78 | One more match adds its row exactly when its posting is known. |
| Notifier.CommentLayout | src/notifiers/github_notifier.py:48-96 | The comment is the header, then the rows when there are any, then the criteria block and footer. |
| Notifier.HeaderCount | src/notifiers/github_notifier.py:48-51 | The header's number reads back as `len(matches)`. |
| Notifier.ListedMeaning | src/notifiers/github_notifier.py:57-60 | Exactly the matches with a known posting are listed, at most all of them, and all of them when every posting is known. |
| Notifier.RowsAreListed | src/notifiers/github_notifier.py:57-78 | There is one row per listed match, in order, each rendering that match and its posting. |
| Notifier.NoKnownPostingNoRows | src/notifiers/github_notifier.py:57-60 | With no known posting, there are no rows. |
| Notifier.Truncate | src/notifiers/github_notifier.py:63-70 | A name within the limit is unchanged. A longer one keeps its first n characters and gains "...". |
| Notifier.DeadlineCell | src/notifiers/github_notifier.py:72 | A present, non-empty deadline is shown as written. A missing or empty one shows "상시". |
| Notifier.SkillsCell | src/notifiers/github_notifier.py:73 | The cell is never empty, and no skills show "-". |
| Notifier.SkillsCellFirstThree | src/notifiers/github_notifier.py:73 | Only the first three skills are shown. |
| Notifier.SkillsCellTwo | src/notifiers/github_notifier.py:73 | Two skills are both shown, in order, separated by ", ". |
| Notifier.SkillsCellThree | src/notifiers/github_notifier.py:73 | Three or more skills show the first three, in order, separated by ", ". |
| Notifier.SkillsCellSingle | src/notifiers/github_notifier.py:73 | A single non-empty skill is shown as it is. |
| Notifier.CriteriaWeights | src/notifiers/github_notifier.py:84-87 | The criteria block states the matcher's four weights. |
| Text.Strip | src/crawlers/base.py:104 | `strip()` never lengthens, and its result neither starts nor ends with whitespace. `StripIsSlice` states what is removed. |
| Text.StripIsSlice | src/crawlers/base.py:104 | The stripped text is a contiguous slice of the original, and everything before and after that slice is whitespace. With `Strip`'s contract this fixes the slice. |
| Text.Split | src/services/github_service.py:150-157 | `split(c)` gives one more piece than there are separators. No piece contains the separator, and joining the pieces gives the text back. |
| Text.SplitStep | src/services/github_service.py:150-157 | `split` cuts at the first separator: the separator-free text before it is the first piece. |
| Text.SplitAppend | src/services/github_service.py:150-157 | Splitting at a separator splits the text on either side of it independently. |
| Text.SplitJoin | src/services/github_service.py:150-157 | Splitting a join of separator-free parts gives the parts back. |
| Text.NonEmpty | src/services/github_service.py:151-158 | The filter keeps exactly the non-empty strings. |
| Text.NonEmptyAppend | src/services/github_service.py:151-158 | The filter works element by element: the result for a concatenation is the concatenation of the results, so order and duplicates are kept. |
| Text.NonEmptySingle | src/services/github_service.py:151-158 | One string is kept exactly when it is non-empty. |
| Text.ParseIntNatToString | src/services/github_service.py:95 | `int()` reads a natural number's decimal text back as that number. |
| Text.ParseIntToString | src/services/github_service.py:95-100 | `int(str(i)) == i`. |
| Text.ReplaceChar | src/services/github_service.py:111 | A text without the character is unchanged. A replacement without the character removes every occurrence. A one-character replacement keeps the length and changes exactly the matching positions. |
| Text.ReplaceCharAppend | src/services/github_service.py:111 | Replacing distributes over concatenation, so each character is replaced on its own. |
| Text.ReplaceCharSingle | src/services/github_service.py:111 | The character itself becomes the whole replacement text; any other character is kept. |
| Text.NatToString | src/notifiers/github_notifier.py:50 | Decimal digits without a leading zero, reading back as the number. |

## Left out

- Network and file I/O are left out: fetching pages, the GitHub API, `notify`,
  `post_comment`, `save_embeddings`, `load_embeddings` and `embeddings_exist`. Logging is
  left out too.
- The crawlers' site-specific parsing.
- The other fields of `Profile` (`education`, `portfolio_url`, `updated_at`, `is_active`)
  and the posting model itself. `src/models/job.py` is not part of this model.
- Embedding.EmbeddingCache: `_get_text_hash` (md5, first 12 hex digits) is an opaque key
  function, so collisions are possible as in the source. The model's single and batch
  encoders are opaque functions. The only assumption is that the batch encoder returns one
  vector per text.
- Embedding.EmbeddingCache.Embed: an encoder failure is not modelled. The source lets the
  exception from `model.encode` propagate, and the cache stays unchanged because the write
  comes after the call. The model's encoder always returns a vector.
- Embedding.EmbeddingCache.EmbedBatch: an encoder failure is not modelled. The source lets
  the batch `encode` exception propagate before any entry is written. The model's batch
  encoder always returns one vector per text.
- Embedding.EmbeddingCache.LoadModel: a failure to load the sentence-transformer model is
  not modelled. The source propagates it and `_model` stays `None`. The model's load
  always succeeds.
- Embedding.EmbeddingCache.StoreMisses: builds the new cache in a local map and assigns it
  once, where the source writes each entry in turn. The final state is the same.
- Matching: `calculate_score` (cosine similarity) and Python's `round(x, 1)` are function
  parameters, and floats are exact reals. `matched_at` in `MatchResult` is not modelled.
- Notifier.FormatMatchComment: today's date (`datetime.now()`) and `f"{score:.0f}"` are
  parameters.
- GitHubParser.ParseIssueToProfile: `datetime.fromisoformat` is an opaque predicate on the
  text. The profile keeps the accepted text rather than a `datetime`. Other
  exceptions the pydantic model could raise are not modelled.
- Text.ParseInt: accepts ASCII digits only. Python's `int()` also accepts other Unicode
  decimal digits, and it refuses more than 4300 digits.
- Text.Lower: lower-cases ASCII letters only. The keywords compared are ASCII or Hangul,
  and Hangul has no case.
- CrawlerFilter: `\d` in the patterns is an ASCII digit, where Python's `\d` also matches
  other Unicode digits. A captured number of more than 4300 digits makes `int(g)` raise
  `ValueError` in the source, and nothing in the filter catches it. The model reads any
  length of digits and gives a verdict.
