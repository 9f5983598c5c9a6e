/** `calculate_score`: the four criteria added into a raw score, their
    weights added into `max_score`, and the raw score scaled to 10 / max_score. */
module Scoring {
  import opened Wrappers
  import opened Profiles
  import opened Criteria

  datatype ScoreResult = ScoreResult(score: real, maxScore: nat)

  /** Why a score cannot be computed: a required skill asks for 0 years (the
      skill ratio divides by zero), or the requirement activates no criterion
      (the final scaling divides by zero). */
  datatype ScoreError = ZeroRequiredYears | NoActiveCriterion

  /** The experience criterion is active when the field is present and not 0. */
  predicate ExperienceRequired(requirement: Requirement) {
    requirement.experience.Some? && requirement.experience.value != 0
  }

  /** The weight the requirement adds to `max_score`: one per required
      certification, one per distinct required skill name, and one each for
      education and experience when they are required. */
  function Weight(requirement: Requirement): nat {
    |requirement.certifications|
      + |SkillTable(requirement.skills)|
      + (if requirement.degrees != [] then 1 else 0)
      + (if ExperienceRequired(requirement) then 1 else 0)
  }

  function CertificationPart(candidate: Candidate, requirement: Requirement, ratio: Similarity): real {
    if requirement.certifications == [] then 0.0
    else CertificationCredit(requirement.certifications, candidate.certifications, ratio)
  }

  function EducationPart(candidate: Candidate, requirement: Requirement, ratio: Similarity): real {
    if requirement.degrees == [] then 0.0
    else EducationCredit(requirement.degrees, CandidateDegrees(candidate), ratio) as real
  }

  function ExperiencePart(candidate: Candidate, requirement: Requirement, currentYear: int): real {
    if !ExperienceRequired(requirement) then 0.0
    else
      match Bounds(candidate.workTimelines, currentYear)
      case None => 0.0
      case Some(b) => ExperienceCredit(b.latest - b.earliest, requirement.experience.value)
  }

  /** The unscaled sum of the four contributions. */
  function RawScore(candidate: Candidate, requirement: Requirement, ratio: Similarity, currentYear: int): real
    requires NoZeroYears(SkillTable(requirement.skills))
  {
    CertificationPart(candidate, requirement, ratio)
      + SkillCredit(requirement.skills, candidate.skills)
      + EducationPart(candidate, requirement, ratio)
      + ExperiencePart(candidate, requirement, currentYear)
  }

  /** The final scaling of the raw score onto 0..10 by the weight. */
  function Normalize(raw: real, maxScore: nat): real
    requires maxScore > 0
  {
    10.0 / maxScore as real * raw
  }

  /** The score of one candidate against one requirement, or the error the
      source raises: the skill error comes first because the skill sum is
      computed before the final scaling. */
  function Score(candidate: Candidate, requirement: Requirement, ratio: Similarity, currentYear: int)
    : Result<ScoreResult, ScoreError>
  {
    if !NoZeroYears(SkillTable(requirement.skills)) then Failure(ZeroRequiredYears)
    else if Weight(requirement) == 0 then Failure(NoActiveCriterion)
    else
      var w := Weight(requirement);
      Success(ScoreResult(Normalize(RawScore(candidate, requirement, ratio, currentYear), w), w))
  }

  /** The certification block: when certifications are required, add their
      number to `maxScore` and the fraction matched to `score`. */
  method AddCertifications(candidate: Candidate, requirement: Requirement, ratio: Similarity, score: real, maxScore: nat)
    returns (score': real, maxScore': nat)
    ensures score' == score + CertificationPart(candidate, requirement, ratio)
    ensures maxScore' == maxScore + |requirement.certifications|
  {
    score', maxScore' := score, maxScore;
    var requiredCertifications := requirement.certifications;
    if requiredCertifications != [] {
      maxScore' := maxScore' + |requiredCertifications|;
      score' := score' + CertificationCredit(requiredCertifications, candidate.certifications, ratio);
    }
  }

  /** The skill block: when skills are required, add the number of distinct
      names to `maxScore` and the summed skill credits to `score`; a required
      0 years is a division by zero. */
  method AddSkills(candidate: Candidate, requirement: Requirement, score: real, maxScore: nat)
    returns (outcome: Result<(real, nat), ScoreError>)
    ensures !NoZeroYears(SkillTable(requirement.skills)) ==> outcome == Failure(ZeroRequiredYears)
    ensures NoZeroYears(SkillTable(requirement.skills)) ==>
      outcome == Success((score + SkillCredit(requirement.skills, candidate.skills),
                          maxScore + |SkillTable(requirement.skills)|))
  {
    var requiredSkills := SkillTable(requirement.skills);
    if requiredSkills == map[] {
      SkillNamesCount(requirement.skills);
      assert SkillNames(requirement.skills) == [];
      assert SkillCredit(requirement.skills, candidate.skills) == 0.0;
      return Success((score, maxScore));
    }
    var candidateSkills := SkillTable(candidate.skills);
    var newMax: nat := maxScore + |requiredSkills|;
    if !NoZeroYears(requiredSkills) {
      return Failure(ZeroRequiredYears);
    }
    var total := SkillSum(SkillNames(requirement.skills), requiredSkills, candidateSkills);
    assert total == SkillCredit(requirement.skills, candidate.skills);
    outcome := Success((score + total, newMax));
  }

  /** The education block: when degrees are required, add 1 to `maxScore` and
      one credit per matched required degree to `score`. */
  method AddEducation(candidate: Candidate, requirement: Requirement, ratio: Similarity, score: real, maxScore: nat)
    returns (score': real, maxScore': nat)
    ensures score' == score + EducationPart(candidate, requirement, ratio)
    ensures maxScore' == maxScore + if requirement.degrees != [] then 1 else 0
  {
    score', maxScore' := score, maxScore;
    var requiredDegrees := requirement.degrees;
    if requiredDegrees != [] {
      var candidateDegrees := CandidateDegrees(candidate);
      maxScore' := maxScore' + 1;
      var credit := CountDegreeMatches(requiredDegrees, candidateDegrees, ratio);
      score' := score' + credit as real;
    }
  }

  /** The experience block: when experience is required, add 1 to `maxScore`
      and the capped span credit to `score` (nothing when no timeline is
      well-formed). */
  method AddExperience(candidate: Candidate, requirement: Requirement, currentYear: int, score: real, maxScore: nat)
    returns (score': real, maxScore': nat)
    ensures score' == score + ExperiencePart(candidate, requirement, currentYear)
    ensures maxScore' == maxScore + if ExperienceRequired(requirement) then 1 else 0
  {
    score', maxScore' := score, maxScore;
    if ExperienceRequired(requirement) {
      var requiredYears := requirement.experience.value;
      maxScore' := maxScore' + 1;
      var bounds := ExperienceBounds(candidate.workTimelines, currentYear);
      if bounds.Some? {
        score' := score' + ExperienceCredit(bounds.value.latest - bounds.value.earliest, requiredYears);
      }
    }
  }

  /** `calculate_score`: the four blocks in the source's order, then the scaling. */
  method CalculateScore(candidate: Candidate, requirement: Requirement, ratio: Similarity, currentYear: int)
    returns (result: Result<ScoreResult, ScoreError>)
    ensures result == Score(candidate, requirement, ratio, currentYear)
  {
    var score, maxScore := AddCertifications(candidate, requirement, ratio, 0.0, 0);
    var afterSkills := AddSkills(candidate, requirement, score, maxScore);
    if afterSkills.Failure? {
      return Failure(afterSkills.error);
    }
    score, maxScore := afterSkills.value.0, afterSkills.value.1;
    score, maxScore := AddEducation(candidate, requirement, ratio, score, maxScore);
    score, maxScore := AddExperience(candidate, requirement, currentYear, score, maxScore);
    if maxScore == 0 {
      return Failure(NoActiveCriterion);
    }
    assert NoZeroYears(SkillTable(requirement.skills));
    assert maxScore == Weight(requirement);
    assert score == RawScore(candidate, requirement, ratio, currentYear);
    result := Success(ScoreResult(Normalize(score, maxScore), maxScore));
  }

  // ---------------------------------------------------------------------
  // Properties of the score

  /** The requirement activates no criterion. */
  predicate Degenerate(requirement: Requirement) {
    requirement.certifications == [] && requirement.skills == []
      && requirement.degrees == [] && !ExperienceRequired(requirement)
  }

  /** `max_score` counts each required certification, each distinct required
      skill name, and one each for education and experience; it is 0 exactly
      when no criterion is active. */
  lemma WeightCountsActiveCriteria(requirement: Requirement)
    ensures Weight(requirement) ==
      |requirement.certifications|
        + |set k | 0 <= k < |requirement.skills| :: requirement.skills[k].name|
        + (if requirement.degrees != [] then 1 else 0)
        + (if ExperienceRequired(requirement) then 1 else 0)
    ensures Weight(requirement) == 0 <==> Degenerate(requirement)
  {
    var skills := requirement.skills;
    SkillTableKeys(skills);
    if skills != [] {
      assert skills[0].name in SkillTable(skills);
    }
  }

  /** The source fails with a division by zero exactly when the last entry of
      some required skill asks for 0 years. */
  lemma ZeroYearsFailure(candidate: Candidate, requirement: Requirement, ratio: Similarity, currentYear: int)
    ensures Score(candidate, requirement, ratio, currentYear) == Failure(ZeroRequiredYears) <==>
      exists k :: 0 <= k < |requirement.skills| && LastOfName(requirement.skills, k) && requirement.skills[k].years == 0
  {
    var skills := requirement.skills;
    var table := SkillTable(skills);
    if !NoZeroYears(table) {
      var n :| n in table && table[n] == 0;
      SkillTableKeys(skills);
      var k := LastIndexOf(skills, n);
      SkillTableLastWins(skills, k);
    } else {
      forall k | 0 <= k < |skills| && LastOfName(skills, k) ensures skills[k].years != 0 {
        SkillTableLastWins(skills, k);
      }
    }
  }

  /** The last entry carrying a listed name. */
  lemma {:induction false} LastIndexOf(skills: seq<Skill>, name: string) returns (k: int)
    requires exists j :: 0 <= j < |skills| && skills[j].name == name
    ensures 0 <= k < |skills| && skills[k].name == name && LastOfName(skills, k)
  {
    if skills[|skills| - 1].name == name {
      k := |skills| - 1;
    } else {
      var init := skills[..|skills| - 1];
      var j :| 0 <= j < |skills| && skills[j].name == name;
      assert init[j] == skills[j];
      k := LastIndexOf(init, name);
      assert skills[k] == init[k];
      forall i | k < i < |skills| ensures skills[i].name != skills[k].name {
        if i < |init| { assert init[i] == skills[i]; }
      }
    }
  }

  /** An empty requirement is refused with an explicit error; any other
      requirement whose skills ask for non-zero years is scored. */
  lemma DegenerateFailure(candidate: Candidate, requirement: Requirement, ratio: Similarity, currentYear: int)
    ensures Score(candidate, requirement, ratio, currentYear) == Failure(NoActiveCriterion) <==> Degenerate(requirement)
    ensures NoZeroYears(SkillTable(requirement.skills)) && !Degenerate(requirement) ==>
      Score(candidate, requirement, ratio, currentYear).Success?
  {
    WeightCountsActiveCriteria(requirement);
  }

  /** Whether scoring fails, and how, depends on the requirement alone. */
  lemma FailureIgnoresCandidate(c1: Candidate, c2: Candidate, requirement: Requirement, ratio: Similarity, currentYear: int)
    ensures Score(c1, requirement, ratio, currentYear).Failure? == Score(c2, requirement, ratio, currentYear).Failure?
    ensures Score(c1, requirement, ratio, currentYear).Failure? ==>
      Score(c1, requirement, ratio, currentYear).error == Score(c2, requirement, ratio, currentYear).error
  {
  }

  /** Inputs under which every contribution keeps its nominal sign: positive
      required years and non-negative candidate years in the skill
      dictionaries (overridden entries do not matter), non-negative required
      experience, and work ranges that end no earlier than they start. */
  predicate Sane(candidate: Candidate, requirement: Requirement, currentYear: int) {
    && PositiveYears(SkillTable(requirement.skills))
    && NonNegativeYears(SkillTable(candidate.skills))
    && (requirement.experience.Some? ==> requirement.experience.value >= 0)
    && (forall k :: 0 <= k < |candidate.workTimelines| && candidate.workTimelines[k].Range? ==>
          candidate.workTimelines[k].start <= ResolveEnd(candidate.workTimelines[k].end, currentYear))
  }

  /** Scaling keeps the sign, and maps a raw score no larger than the weight to at most 10. */
  lemma NormalizeBounds(raw: real, maxScore: nat)
    requires maxScore > 0
    ensures 0.0 <= raw ==> 0.0 <= Normalize(raw, maxScore)
    ensures raw <= maxScore as real ==> Normalize(raw, maxScore) <= 10.0
  {
    var f := 10.0 / maxScore as real;
    assert f * maxScore as real == 10.0;
    if raw <= maxScore as real {
      assert f * raw <= f * maxScore as real;
    }
  }

  /** On sane inputs the score is not negative, and it is at most 10 as long
      as at most one degree is required: education is the one criterion whose
      contribution can exceed its weight. */
  lemma ScoreBounds(candidate: Candidate, requirement: Requirement, ratio: Similarity, currentYear: int)
    requires Sane(candidate, requirement, currentYear)
    requires Score(candidate, requirement, ratio, currentYear).Success?
    ensures 0.0 <= Score(candidate, requirement, ratio, currentYear).value.score
    ensures |requirement.degrees| <= 1 ==> Score(candidate, requirement, ratio, currentYear).value.score <= 10.0
  {
    var cert := CertificationPart(candidate, requirement, ratio);
    var skill := SkillCredit(requirement.skills, candidate.skills);
    var edu := EducationPart(candidate, requirement, ratio);
    var exp := ExperiencePart(candidate, requirement, currentYear);
    assert 0.0 <= cert <= |requirement.certifications| as real by {
      if requirement.certifications != [] {
        CertificationCreditBounds(requirement.certifications, candidate.certifications, ratio);
      }
    }
    assert 0.0 <= skill <= |SkillTable(requirement.skills)| as real by {
      SkillCreditBounds(requirement.skills, candidate.skills);
    }
    assert 0.0 <= edu <= |requirement.degrees| as real;
    assert 0.0 <= exp <= (if ExperienceRequired(requirement) then 1.0 else 0.0) by {
      if ExperienceRequired(requirement) && Bounds(candidate.workTimelines, currentYear).Some? {
        var b := Bounds(candidate.workTimelines, currentYear).value;
        SpanNonNegative(candidate.workTimelines, currentYear);
        ExperienceCreditBounds(b.latest - b.earliest, requirement.experience.value);
      }
    }
    NormalizeBounds(RawScore(candidate, requirement, ratio, currentYear), Weight(requirement));
  }

  /** Education can over-count: a requirement that asks only for degrees,
      each matched by some candidate degree, scores 10 per required degree. */
  lemma EducationOvercount(candidate: Candidate, requirement: Requirement, ratio: Similarity, currentYear: int)
    requires requirement.certifications == [] && requirement.skills == [] && !ExperienceRequired(requirement)
    requires requirement.degrees != []
    requires forall k :: 0 <= k < |requirement.degrees| ==>
      Matches(requirement.degrees[k], CandidateDegrees(candidate), ratio, DegreeThreshold as real)
    ensures Score(candidate, requirement, ratio, currentYear)
         == Success(ScoreResult(10.0 * |requirement.degrees| as real, 1))
  {
    assert SkillTable(requirement.skills) == map[];
    assert SkillNames(requirement.skills) == [];
  }

  /** A negative experience requirement against a range that ends before it
      starts earns more than the weight: a span of -10 years against -5
      required is worth 2, so the score is 20. */
  lemma NegativeExperienceOvercount(ratio: Similarity, currentYear: int)
    ensures Score(Candidate([], [], [], [Range(2020, Year(2010))]), Requirement([], [], [], Some(-5)), ratio, currentYear)
         == Success(ScoreResult(20.0, 1))
  {
    var candidate := Candidate([], [], [], [Range(2020, Year(2010))]);
    var requirement := Requirement([], [], [], Some(-5));
    var timelines := candidate.workTimelines;
    assert timelines[..0] == [];
    assert Bounds(timelines, currentYear) == Some(Span(2020, 2010));
    assert ExperiencePart(candidate, requirement, currentYear) == 2.0;
    assert SkillTable(requirement.skills) == map[];
    assert SkillNames(requirement.skills) == [];
    assert Weight(requirement) == 1;
  }
}
