/** The four scoring criteria of `calculate_score`: certifications, skills,
    education and experience, each as a specification function, with the two
    loops of the source (the degree scan with its early exit and the
    timeline scan) as methods proved against them. */
module Criteria {
  import opened Wrappers
  import opened Profiles

  // ---------------------------------------------------------------------
  // Fuzzy matching of required strings, shared by certifications and degrees

  /** Some offered string is at least `threshold` similar to `wanted`. */
  predicate Matches(wanted: string, offered: seq<string>, ratio: Similarity, threshold: real) {
    exists s :: s in offered && ratio(wanted, s) as real >= threshold
  }

  /** How many required strings (repetitions counted) are matched by some
      offered string: each contributes at most one. */
  function CountMatched(required: seq<string>, offered: seq<string>, ratio: Similarity, threshold: real): (n: nat)
    ensures n <= |required|
    ensures n == 0 <==> forall k :: 0 <= k < |required| ==> !Matches(required[k], offered, ratio, threshold)
    ensures n == |required| <==> forall k :: 0 <= k < |required| ==> Matches(required[k], offered, ratio, threshold)
  {
    if required == [] then 0
    else
      var init := required[..|required| - 1];
      assert forall k :: 0 <= k < |init| ==> init[k] == required[k];
      CountMatched(init, offered, ratio, threshold)
        + (if Matches(required[|required| - 1], offered, ratio, threshold) then 1 else 0)
  }

  // ---------------------------------------------------------------------
  // Certifications

  /** The summed length of all required certification strings. */
  function TotalLength(certifications: seq<string>): nat {
    if certifications == [] then 0
    else TotalLength(certifications[..|certifications| - 1]) + |certifications[|certifications| - 1]|
  }

  /** The similarity a candidate certification needs: 0.8 times the summed
      length of ALL required certifications, the same for every pair. */
  function CertificationThreshold(required: seq<string>): real {
    0.8 * TotalLength(required) as real
  }

  /** The fraction of required certifications that some candidate
      certification matches. */
  function CertificationCredit(required: seq<string>, offered: seq<string>, ratio: Similarity): real
    requires required != []
  {
    CountMatched(required, offered, ratio, CertificationThreshold(required)) as real / |required| as real
  }

  /** The certification credit lies in [0, 1]; it is 0 exactly when no
      required certification is matched and 1 exactly when all are. */
  lemma CertificationCreditBounds(required: seq<string>, offered: seq<string>, ratio: Similarity)
    requires required != []
    ensures 0.0 <= CertificationCredit(required, offered, ratio) <= 1.0
    ensures CertificationCredit(required, offered, ratio) == 0.0 <==>
      forall k :: 0 <= k < |required| ==> !Matches(required[k], offered, ratio, CertificationThreshold(required))
    ensures CertificationCredit(required, offered, ratio) == 1.0 <==>
      forall k :: 0 <= k < |required| ==> Matches(required[k], offered, ratio, CertificationThreshold(required))
  {
    var matched := CountMatched(required, offered, ratio, CertificationThreshold(required));
    FractionBounds(matched as real, |required| as real);
  }

  /** A part over a positive whole lies in [0, 1], at 0 only for an empty part
      and at 1 only for the whole. */
  lemma FractionBounds(part: real, whole: real)
    requires 0.0 <= part <= whole && 0.0 < whole
    ensures 0.0 <= part / whole <= 1.0
    ensures part / whole == 0.0 <==> part == 0.0
    ensures part / whole == 1.0 <==> part == whole
  {
    var q := part / whole;
    assert q * whole == part;
  }

  /** Once the required certifications together exceed 125 characters the
      threshold exceeds 100, which no similarity on the 0..100 scale reaches:
      no candidate can earn any certification credit. */
  lemma LongCertificationListsNeverMatch(required: seq<string>, offered: seq<string>, ratio: Similarity)
    requires PercentScale(ratio)
    requires TotalLength(required) > 125
    ensures CertificationCredit(required, offered, ratio) == 0.0
  {
    CertificationCreditBounds(required, offered, ratio);
    var threshold := CertificationThreshold(required);
    assert threshold > 100.0;
    forall k | 0 <= k < |required| ensures !Matches(required[k], offered, ratio, threshold) {
      forall s | s in offered ensures (ratio(required[k], s) as real) < threshold {
        assert ratio(required[k], s) <= 100;
      }
    }
  }

  // ---------------------------------------------------------------------
  // Skills

  function Min(a: real, b: real): real {
    if a <= b then a else b
  }

  /** The candidate's years with a skill; a skill the candidate lacks counts as 0. */
  function CandidateYears(offered: map<string, int>, name: string): int {
    if name in offered then offered[name] else 0
  }

  /** The credit for one required skill: candidate years over required years,
      capped at 1. */
  function SkillScore(candidateYears: int, requiredYears: int): real
    requires requiredYears != 0
  {
    Min(candidateYears as real / requiredYears as real, 1.0)
  }

  /** A skill credit never exceeds 1, is 0 for a skill the candidate lacks,
      for a positive requirement reaches 1 exactly when the candidate has the
      required years, and is not negative for non-negative years against a
      positive requirement. */
  lemma SkillScoreBounds(candidateYears: int, requiredYears: int)
    requires requiredYears != 0
    ensures SkillScore(candidateYears, requiredYears) <= 1.0
    ensures candidateYears == 0 ==> SkillScore(candidateYears, requiredYears) == 0.0
    ensures requiredYears > 0 ==> (SkillScore(candidateYears, requiredYears) == 1.0 <==> candidateYears >= requiredYears)
    ensures requiredYears > 0 && candidateYears >= 0 ==> 0.0 <= SkillScore(candidateYears, requiredYears)
  {
    var q := candidateYears as real / requiredYears as real;
    if requiredYears > 0 {
      assert q * requiredYears as real == candidateYears as real;
      assert q >= 1.0 <==> candidateYears >= requiredYears;
    }
  }

  /** Every number of years in the dictionary is positive. */
  predicate PositiveYears(table: map<string, int>) {
    forall n :: n in table ==> table[n] > 0
  }

  /** No number of years in the dictionary is negative. */
  predicate NonNegativeYears(table: map<string, int>) {
    forall n :: n in table ==> table[n] >= 0
  }

  /** No required number of years is zero; one that is would divide by zero. */
  predicate NoZeroYears(required: map<string, int>) {
    forall n :: n in required ==> required[n] != 0
  }

  /** The credits of the named required skills, added up. */
  function SkillSum(names: seq<string>, required: map<string, int>, offered: map<string, int>): real
    requires forall n :: n in names ==> n in required
    requires NoZeroYears(required)
  {
    if names == [] then 0.0
    else SkillScore(CandidateYears(offered, names[0]), required[names[0]]) + SkillSum(names[1..], required, offered)
  }

  /** The sum is at most one per name, and not negative when every required
      number of years is positive and no candidate number is negative. */
  lemma {:induction false} SkillSumBounds(names: seq<string>, required: map<string, int>, offered: map<string, int>)
    requires forall n :: n in names ==> n in required
    requires NoZeroYears(required)
    ensures SkillSum(names, required, offered) <= |names| as real
    ensures (forall n :: n in names ==> required[n] > 0 && CandidateYears(offered, n) >= 0) ==>
      0.0 <= SkillSum(names, required, offered)
  {
    if names != [] {
      SkillScoreBounds(CandidateYears(offered, names[0]), required[names[0]]);
      SkillSumBounds(names[1..], required, offered);
    }
  }

  /** The skill criterion's contribution: one credit per distinct required
      skill name, each taken from the last entry of that name. */
  function SkillCredit(required: seq<Skill>, offered: seq<Skill>): real
    requires NoZeroYears(SkillTable(required))
  {
    SkillSum(SkillNames(required), SkillTable(required), SkillTable(offered))
  }

  /** The skill credit is at most one per distinct required skill, and not
      negative when every required number of years the dictionary keeps is
      positive and no candidate number it keeps is negative. */
  lemma SkillCreditBounds(required: seq<Skill>, offered: seq<Skill>)
    requires NoZeroYears(SkillTable(required))
    ensures SkillCredit(required, offered) <= |SkillTable(required)| as real
    ensures PositiveYears(SkillTable(required)) && NonNegativeYears(SkillTable(offered))
         ==> 0.0 <= SkillCredit(required, offered)
  {
    SkillNamesCount(required);
    SkillSumBounds(SkillNames(required), SkillTable(required), SkillTable(offered));
  }

  // ---------------------------------------------------------------------
  // Education

  /** The similarity a candidate degree needs to match a required one. */
  const DegreeThreshold: int := 80

  /** One credit per required degree that some candidate degree matches. */
  function EducationCredit(required: seq<string>, offered: seq<string>, ratio: Similarity): nat {
    CountMatched(required, offered, ratio, DegreeThreshold as real)
  }

  /** Matching against the candidate's degree titles is matching against the
      candidate's own education records, an absent title read as "". */
  lemma CandidateDegreeMatches(wanted: string, candidate: Candidate, ratio: Similarity, threshold: real)
    ensures Matches(wanted, CandidateDegrees(candidate), ratio, threshold) <==>
      exists k :: 0 <= k < |candidate.education| &&
        ratio(wanted, candidate.education[k].degree.GetOr("")) as real >= threshold
  {
    var titles := CandidateDegrees(candidate);
    if Matches(wanted, titles, ratio, threshold) {
      var s :| s in titles && ratio(wanted, s) as real >= threshold;
      var k :| 0 <= k < |titles| && titles[k] == s;
      assert ratio(wanted, candidate.education[k].degree.GetOr("")) as real >= threshold;
    }
    if exists k :: 0 <= k < |candidate.education| &&
        ratio(wanted, candidate.education[k].degree.GetOr("")) as real >= threshold {
      var k :| 0 <= k < |candidate.education| &&
        ratio(wanted, candidate.education[k].degree.GetOr("")) as real >= threshold;
      assert titles[k] in titles;
    }
  }

  /** The source's nested scan: for each required degree, look through the
      candidate's degrees and stop at the first match. */
  method CountDegreeMatches(required: seq<string>, offered: seq<string>, ratio: Similarity) returns (credit: nat)
    ensures credit == EducationCredit(required, offered, ratio)
  {
    credit := 0;
    for i := 0 to |required|
      invariant credit == EducationCredit(required[..i], offered, ratio)
    {
      ghost var before := credit;
      var j := 0;
      while j < |offered|
        invariant 0 <= j <= |offered|
        invariant credit == before
        invariant forall k :: 0 <= k < j ==> ratio(required[i], offered[k]) < DegreeThreshold
      {
        if ratio(required[i], offered[j]) >= DegreeThreshold {
          assert offered[j] in offered;
          credit := credit + 1;
          break;
        }
        j := j + 1;
      }
      assert required[..i + 1][..i] == required[..i];
      assert credit == before + if Matches(required[i], offered, ratio, DegreeThreshold as real) then 1 else 0;
    }
    assert required[..|required|] == required;
  }

  // ---------------------------------------------------------------------
  // Experience

  /** The earliest start year and the latest end year seen so far. */
  datatype Span = Span(earliest: int, latest: int)

  /** An end marker that is not a concrete year means the current year. */
  function ResolveEnd(end: EndYear, currentYear: int): int {
    match end
    case Year(y) => y
    case Ongoing => currentYear
  }

  function StartOf(t: Timeline): int
    requires !t.Malformed?
  {
    match t
    case Single(y) => y
    case Range(start, _) => start
  }

  function EndOf(t: Timeline, currentYear: int): int
    requires !t.Malformed?
  {
    match t
    case Single(y) => y
    case Range(_, end) => ResolveEnd(end, currentYear)
  }

  /** One step of the scan: a well-formed timeline lowers the earliest start
      and raises the latest end; any other shape leaves them unchanged. */
  function Widen(bounds: Option<Span>, t: Timeline, currentYear: int): Option<Span> {
    if t.Malformed? then bounds
    else
      var start, end := StartOf(t), EndOf(t, currentYear);
      match bounds
      case None => Some(Span(start, end))
      case Some(b) => Some(Span(if start < b.earliest then start else b.earliest,
                                if end > b.latest then end else b.latest))
  }

  /** The bounds after scanning all timelines in order; None when none is well-formed. */
  function Bounds(timelines: seq<Timeline>, currentYear: int): Option<Span> {
    if timelines == [] then None
    else Widen(Bounds(timelines[..|timelines| - 1], currentYear), timelines[|timelines| - 1], currentYear)
  }

  /** The scan finds exactly the earliest start and the latest end over the
      well-formed timelines, and finds nothing when every timeline is malformed. */
  lemma {:induction false} BoundsAreExtremes(timelines: seq<Timeline>, currentYear: int)
    ensures Bounds(timelines, currentYear).None? <==> forall k :: 0 <= k < |timelines| ==> timelines[k].Malformed?
    ensures Bounds(timelines, currentYear).Some? ==>
      var b := Bounds(timelines, currentYear).value;
      && (forall k :: 0 <= k < |timelines| && !timelines[k].Malformed? ==>
            b.earliest <= StartOf(timelines[k]) && EndOf(timelines[k], currentYear) <= b.latest)
      && (exists k :: 0 <= k < |timelines| && !timelines[k].Malformed? && StartOf(timelines[k]) == b.earliest)
      && (exists k :: 0 <= k < |timelines| && !timelines[k].Malformed? && EndOf(timelines[k], currentYear) == b.latest)
  {
    if timelines != [] {
      var n := |timelines| - 1;
      var init, last := timelines[..n], timelines[n];
      BoundsAreExtremes(init, currentYear);
      assert forall k :: 0 <= k < n ==> init[k] == timelines[k];
      var before := Bounds(init, currentYear);
      if !last.Malformed? && before.Some? {
        var b := before.value;
        var ks :| 0 <= ks < n && !init[ks].Malformed? && StartOf(init[ks]) == b.earliest;
        var ke :| 0 <= ke < n && !init[ke].Malformed? && EndOf(init[ke], currentYear) == b.latest;
        if StartOf(last) >= b.earliest { assert timelines[ks] == init[ks]; }
        if EndOf(last, currentYear) <= b.latest { assert timelines[ke] == init[ke]; }
      } else if before.Some? {
        var b := before.value;
        var ks :| 0 <= ks < n && !init[ks].Malformed? && StartOf(init[ks]) == b.earliest;
        var ke :| 0 <= ke < n && !init[ke].Malformed? && EndOf(init[ke], currentYear) == b.latest;
        assert timelines[ks] == init[ks] && timelines[ke] == init[ke];
      }
    }
  }

  /** The source's scan over the work timelines, with None standing for the
      infinite starting values of the two running bounds. */
  method ExperienceBounds(timelines: seq<Timeline>, currentYear: int) returns (bounds: Option<Span>)
    ensures bounds == Bounds(timelines, currentYear)
  {
    var minStart: Option<int> := None;
    var maxEnd: Option<int> := None;
    for i := 0 to |timelines|
      invariant minStart.Some? == maxEnd.Some?
      invariant Bounds(timelines[..i], currentYear) ==
        if minStart.Some? then Some(Span(minStart.value, maxEnd.value)) else None
    {
      assert timelines[..i + 1][..i] == timelines[..i];
      var start, end;
      match timelines[i] {
        case Range(s, e) =>
          start, end := s, ResolveEnd(e, currentYear);
        case Single(y) =>
          start, end := y, y;
        case Malformed =>
          continue;
      }
      minStart := if minStart.None? || start < minStart.value then Some(start) else minStart;
      maxEnd := if maxEnd.None? || end > maxEnd.value then Some(end) else maxEnd;
    }
    assert timelines[..|timelines|] == timelines;
    bounds := if minStart.Some? && maxEnd.Some? then Some(Span(minStart.value, maxEnd.value)) else None;
  }

  /** When every range ends no earlier than it starts, the span is not negative. */
  lemma SpanNonNegative(timelines: seq<Timeline>, currentYear: int)
    requires forall k :: 0 <= k < |timelines| && timelines[k].Range? ==>
      timelines[k].start <= ResolveEnd(timelines[k].end, currentYear)
    requires Bounds(timelines, currentYear).Some?
    ensures Bounds(timelines, currentYear).value.earliest <= Bounds(timelines, currentYear).value.latest
  {
    BoundsAreExtremes(timelines, currentYear);
    var b := Bounds(timelines, currentYear).value;
    var k :| 0 <= k < |timelines| && !timelines[k].Malformed? && StartOf(timelines[k]) == b.earliest;
    assert StartOf(timelines[k]) <= EndOf(timelines[k], currentYear);
  }

  /** The experience credit for a span of years against the required years:
      proportional up to the requirement, 1 beyond it. */
  function ExperienceCredit(span: int, required: int): real
    requires required != 0
  {
    if span <= required then span as real / required as real else 1.0
  }

  /** A span beyond the requirement earns exactly 1, and a non-negative span
      against a positive requirement earns between 0 and 1. */
  lemma ExperienceCreditBounds(span: int, required: int)
    requires required != 0
    ensures span > required ==> ExperienceCredit(span, required) == 1.0
    ensures 0 <= span && 0 < required ==> 0.0 <= ExperienceCredit(span, required) <= 1.0
  {
    if 0 <= span <= required {
      FractionBounds(span as real, required as real);
    }
  }

  /** Work from 2018 to 2023 and from 2015 to 2018, against 10 required
      years: the span is 2015..2023, 8 years, worth 0.8; an ongoing job that
      starts in 2020 ends in the current year. */
  lemma SpanExamples(currentYear: int)
    requires currentYear >= 2023
    ensures Bounds([Range(2018, Year(2023)), Range(2015, Year(2018))], currentYear) == Some(Span(2015, 2023))
    ensures ExperienceCredit(2023 - 2015, 10) == 0.8
    ensures Bounds([Range(2015, Year(2018)), Malformed, Range(2020, Ongoing)], currentYear) == Some(Span(2015, currentYear))
  {
    var jobs := [Range(2018, Year(2023)), Range(2015, Year(2018))];
    assert jobs[..1] == [Range(2018, Year(2023))] && jobs[..1][..0] == [];
    assert Bounds(jobs[..1], currentYear) == Some(Span(2018, 2023));
    var ts := [Range(2015, Year(2018)), Malformed, Range(2020, Ongoing)];
    assert ts[..2] == [Range(2015, Year(2018)), Malformed];
    assert ts[..2][..1] == [Range(2015, Year(2018))] && ts[..2][..1][..0] == [];
    assert Bounds(ts[..2][..1], currentYear) == Some(Span(2015, 2018));
    assert Bounds(ts[..2], currentYear) == Some(Span(2015, 2018));
  }
}
