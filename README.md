# ResumeMatcher scoring and ranking, modelled in Dafny

This project models the core of ResumeMatcher, `ranking.py`. The core has two parts:

- `calculate_score` scores one candidate profile against one job requirement. It has four
  criteria: certifications, skills, education and experience. Each criterion counts only when
  the requirement asks for it. Each active criterion adds a contribution to a raw `score` and a
  weight to `max_score`. The result is `10 / max_score * score`.
- `filter_candidates` scores every candidate and keeps those scoring at least 7. It then sorts
  them by score, highest first. The sort is stable, so equal scores keep their input order.

Layout, one module per file:

- `wrappers.dfy` (`Wrappers`): `Option` and `Result`.
- `profiles.dfy` (`Profiles`): typed candidate and requirement records. Also the skill
  dictionary (`SkillTable`, later entries win) and its key order (`SkillNames`).
- `criteria.dfy` (`Criteria`): the four criteria as specification functions. Two loops of the
  source are methods proved against them: the degree scan that stops at the first match
  (`CountDegreeMatches`) and the scan for the earliest start and latest end (`ExperienceBounds`).
- `scoring.dfy` (`Scoring`): `Score`, the specification of `calculate_score`. Its errors are
  `ZeroRequiredYears`, a required skill of 0 years that divides by zero, and
  `NoActiveCriterion`, where `max_score` is 0. The method `CalculateScore` follows the
  source's four `+=` blocks (`AddCertifications`, `AddSkills`, `AddEducation`,
  `AddExperience`) and is proved equal to `Score`.
- `ranking.dfy` (`Ranking`): `Qualified`, the kept candidates in input order or the first error.
  `SortByScore` is a stable insertion sort. `FilterCandidates` is the ranker.

Two inputs from outside the program are parameters:

- The fuzzy token-sort ratio is a function parameter `ratio: (string, string) -> int`.
  `PercentScale(ratio)` says that it stays in 0..100. Only the lemma that needs this
  assumption requires it.
- The current calendar year is the parameter `currentYear`.

Scores are Dafny `real`s, because the source uses only ratios, sums, `min` and caps.

Some behaviours of the code are easy to misread. The model follows the code in each:

- `max_score` adds one per required certification (`ranking.py:14`) and one per distinct
  required skill name (`ranking.py:34`). It does not add one per criterion.
- An experience requirement of 0 is falsy, so it switches the criterion off (`ranking.py:57`).
  A negative requirement is active.
- A score is not always in 0..10. Two cases give a score above 10:
  - Education adds one credit per matched degree against a weight of 1 (`EducationOvercount`).
  - A negative experience requirement against a range that ends before it starts earns more
    than 1 (`ranking.py:76-77`). A span of -10 years against -5 required earns 2, so the score
    is 20 (`NegativeExperienceOvercount`).
- Negative years, or a range that ends before it starts, can also make a contribution negative.
  `ScoreBounds` states the bounds that do hold.

## Model

| member | source | states |
|---|---|---|
| `Profiles.SkillTableKeys` | ranking.py:26-28 | the skill dictionary's keys are exactly the skill names listed |
| `Profiles.SkillTableLastWins` | ranking.py:26-28 | a skill name listed more than once keeps the years of its last entry |
| `Profiles.SkillNames` | ranking.py:38 | the dictionary's iteration order lists each key once, and lists exactly the keys |
| `Profiles.SkillNamesCount` | ranking.py:34 | `len(required_skills)` equals the number of names the skill sum visits |
| `Criteria.CandidateDegreeMatches` | ranking.py:45-53 | a required degree matches the candidate's title list iff it matches the title of one of the candidate's own education records, an absent title read as the empty string |
| `Criteria.CountMatched` | ranking.py:16-23 | each required string adds at most one match; the count is 0 iff none is matched by any offered string, and equals the number required iff all are |
| `Criteria.CertificationCreditBounds` | ranking.py:15-23 | the certification contribution is in [0, 1]; it is 0 iff no required certification reaches the threshold (0.8 x the total length of all required certifications), and 1 iff every one does |
| `Criteria.LongCertificationListsNeverMatch` | ranking.py:15-21 | when the required certifications total more than 125 characters, the threshold exceeds 100 and no candidate earns any certification credit |
| `Criteria.SkillScoreBounds` | ranking.py:37 | one skill's credit `min(cand/req, 1)` is at most 1, is 0 for a skill the candidate lacks, for a positive requirement is 1 iff the candidate has the required years, and is not negative for non-negative years against a positive requirement |
| `Criteria.SkillSumBounds` | ranking.py:36-39 | the summed skill credits are at most one per name, and not negative for non-negative years against positive requirements |
| `Criteria.SkillCreditBounds` | ranking.py:29-40 | the skill contribution is at most `len(required_skills)`, and not negative when every required years value the dictionary keeps is positive and no candidate years value it keeps is negative |
| `Criteria.CountDegreeMatches` | ranking.py:49-53 | the nested scan with `break` adds exactly one credit for each required degree that some candidate degree matches with ratio >= 80 |
| `Criteria.BoundsAreExtremes` | ranking.py:60-74 | the scan yields nothing iff every timeline is malformed; otherwise it yields the least start and the greatest end over the well-formed timelines, and both are reached |
| `Criteria.ExperienceBounds` | ranking.py:60-72 | the loop over work timelines computes exactly those bounds; an open end counts as the current year and other shapes are skipped |
| `Criteria.SpanNonNegative` | ranking.py:75 | when no range ends before it starts, latest end minus earliest start is not negative |
| `Criteria.ExperienceCreditBounds` | ranking.py:75-79 | a span beyond the requirement scores exactly 1; a non-negative span against a positive requirement scores within [0, 1] |
| `Criteria.SpanExamples` | ranking.py:62-77 | [2018, 2023] and [2015, 2018] give the span 2015..2023, and 8 of 10 required years is 0.8; an open-ended range ends in the current year |
| `Scoring.AddCertifications` | ranking.py:11-23 | the certification block adds `len(required_certifications)` to `max_score` and the matched fraction to the score, or nothing when no certification is required |
| `Scoring.AddSkills` | ranking.py:26-40 | the skill block fails with a division by zero if some required years are 0; otherwise it adds the number of distinct names and the summed credits |
| `Scoring.AddEducation` | ranking.py:43-53 | the education block adds 1 to `max_score` and one credit per matched required degree |
| `Scoring.AddExperience` | ranking.py:56-79 | the experience block, active for a non-zero requirement, adds 1 to `max_score` and the capped span credit, or 0 when no timeline is well-formed |
| `Scoring.CalculateScore` | ranking.py:6-82 | the scorer returns exactly the specified result: the skill error, the empty-requirement error, or `10 / max_score * score` paired with `max_score` |
| `Scoring.WeightCountsActiveCriteria` | ranking.py:11-59 | `max_score` is the number of required certifications, plus the number of distinct required skill names, plus 1 each for education and experience; it is 0 iff no criterion is active |
| `Scoring.ZeroYearsFailure` | ranking.py:36-39 | scoring fails with a division by zero iff the last entry of some required skill asks for 0 years |
| `Scoring.DegenerateFailure` | ranking.py:80 | scoring fails because `max_score` is 0 iff the requirement asks for no certification, skill, degree or experience; a requirement that asks for something and has no 0-year skill is scored |
| `Scoring.FailureIgnoresCandidate` | ranking.py:6-82 | whether scoring fails, and with which error, depends only on the requirement |
| `Scoring.NormalizeBounds` | ranking.py:80 | scaling keeps a non-negative raw score non-negative, and a raw score no larger than `max_score` ends at most 10 |
| `Scoring.ScoreBounds` | ranking.py:6-82 | with positive required and non-negative candidate years in the skill dictionaries, a non-negative experience requirement and no range ending before it starts, the score is not negative; with at most one required degree it is also at most 10 |
| `Scoring.EducationOvercount` | ranking.py:43-53 | a requirement asking only for n degrees, each matched, scores 10 x n with `max_score` 1 |
| `Scoring.NegativeExperienceOvercount` | ranking.py:76-80 | a range from 2020 back to 2010 against a requirement of -5 years earns an experience credit of 2 and a score of 20 with `max_score` 1 |
| `Ranking.QualifiedMembership` | ranking.py:88-91 | an entry is kept iff its candidate is an input, it carries that candidate's own score and `max_score`, and the score is at least 7 |
| `Ranking.QualifiedFailure` | ranking.py:88-89 | ranking fails iff there is a candidate and scoring fails for it; the error is that scoring error, and an empty batch never fails |
| `Ranking.InsertionPoint` | ranking.py:93 | the insertion position comes after the leading entries scoring at least as much, and is at the first entry scoring less or at the end |
| `Ranking.SortByScore` | ranking.py:93 | the sort output is ordered by score, highest first, keeps each score's entries in input order, and is a permutation of its input |
| `Ranking.SortedWithSameTiesUnique` | ranking.py:93 | two sequences that are both ordered by score and keep the same order within each score are equal, so every stable descending sort gives the same output |
| `Ranking.TiesKeepInputOrder` | ranking.py:93 | kept scores 8.0, 9.5, 8.0 come out as 9.5 and then both 8.0 entries in input order |
| `Ranking.FilterCandidates` | ranking.py:85-95 | the ranker returns the first scoring error; otherwise it returns the kept candidates sorted by score, highest first, with ties in input order and nothing added or lost |

## Left out

- `fuzz.token_sort_ratio` (fuzzywuzzy) is a library call whose code is not part of this model. It is the parameter `ratio`, and nothing about its internals is modelled. The model does not capture tokenising, case folding or edit distance.
- `datetime.datetime.now().year` reads the wall clock. It is the parameter `currentYear`. One `currentYear` serves the whole batch in `Qualified` and `FilterCandidates`, but the source reads the clock once per scored candidate. So a batch scored across New Year is not represented.
- The `__main__` block (JSON parsing of sample data and printing) is I/O glue.
- The model does not check dynamic shapes. Records are typed, so these source behaviours are out: `.get` defaults beyond the empty lists and the absent degree title, `KeyError` on an entry without `skill_name` or `yoe`, `TypeError` on a start year that is not a number, a float start year (the source accepts it, and the span becomes fractional; start years here are integers), and `bool` counting as `int`. A timeline that is neither a list of two nor an integer is `Malformed`. An end year that is not an integer is `Ongoing`.
- The `float("inf")` and `float("-inf")` starting bounds are the absent value `None`.
- Floating-point rounding is not modelled. Scores and the certification threshold are exact reals, so `0.8 * total` never rounds.
- Required degrees are strings. The source's own sample passes education records (dictionaries) there, and comparing those is a library detail not modelled.
- `list.sort` sorts in place with Python's own algorithm. The model sorts a sequence value by stable insertion. `SortedWithSameTiesUnique` shows that any stable descending sort gives the same result.
- Python exceptions are `Failure` values. The ranker stops at the first one, as the exception would.
