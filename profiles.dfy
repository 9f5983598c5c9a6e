/** Candidate profiles and job requirements, as typed records.
    The source reads both from loosely typed dictionaries; here every field
    has a fixed shape, and an absent list is the empty sequence. */
module Profiles {
  import opened Wrappers

  /** Fuzzy token-sort similarity of two strings. It is a library call whose
      internals are not modelled, so the scorer receives it as a parameter. */
  type Similarity = (string, string) -> int

  /** The library reports similarity on the scale 0..100. */
  ghost predicate PercentScale(ratio: Similarity) {
    forall a, b :: 0 <= ratio(a, b) <= 100
  }

  /** One `{"skill_name": ..., "yoe": ...}` entry: a skill and years of experience with it. */
  datatype Skill = Skill(name: string, years: int)

  /** The second element of a two-element work timeline: a concrete year, or
      anything that is not an integer (such as "present"), read as ongoing. */
  datatype EndYear = Year(year: int) | Ongoing

  /** A work timeline: a single year, a [start, end] pair, or any other shape
      (missing, wrong length, not a list), which the scorer skips. */
  datatype Timeline = Single(year: int) | Range(start: int, end: EndYear) | Malformed

  /** One education entry; its degree title may be absent. */
  datatype EducationRecord = EducationRecord(degree: Option<string>)

  datatype Candidate = Candidate(
    certifications: seq<string>,
    skills: seq<Skill>,
    education: seq<EducationRecord>,
    workTimelines: seq<Timeline>)

  /** A job requirement. Every field may be left empty; `experience` is the
      required number of years, None when the field is absent. */
  datatype Requirement = Requirement(
    certifications: seq<string>,
    skills: seq<Skill>,
    degrees: seq<string>,
    experience: Option<int>)

  /** Skill entry `k` is the last one carrying its name. */
  predicate LastOfName(skills: seq<Skill>, k: int)
    requires 0 <= k < |skills|
  {
    forall j :: k < j < |skills| ==> skills[j].name != skills[k].name
  }

  /** The dictionary `{skill_name: yoe}` built from a list of skill entries,
      one entry after another. */
  function SkillTable(skills: seq<Skill>): map<string, int>
  {
    if skills == [] then map[]
    else
      var last := skills[|skills| - 1];
      SkillTable(skills[..|skills| - 1])[last.name := last.years]
  }

  /** Every name listed, and nothing else, is a key of the dictionary. */
  lemma {:induction false} SkillTableKeys(skills: seq<Skill>)
    ensures SkillTable(skills).Keys == set k | 0 <= k < |skills| :: skills[k].name
  {
    if skills != [] {
      var init := skills[..|skills| - 1];
      SkillTableKeys(init);
      assert forall k :: 0 <= k < |init| ==> init[k] == skills[k];
      assert (set k | 0 <= k < |skills| :: skills[k].name)
          == (set k | 0 <= k < |init| :: init[k].name) + {skills[|skills| - 1].name};
    }
  }

  /** A name listed more than once keeps the years of its last entry. */
  lemma {:induction false} SkillTableLastWins(skills: seq<Skill>, k: int)
    requires 0 <= k < |skills| && LastOfName(skills, k)
    ensures skills[k].name in SkillTable(skills)
    ensures SkillTable(skills)[skills[k].name] == skills[k].years
  {
    var init := skills[..|skills| - 1];
    if k < |skills| - 1 {
      assert LastOfName(init, k) by {
        forall j | k < j < |init| ensures init[j].name != init[k].name {
          assert init[j] == skills[j];
        }
      }
      SkillTableLastWins(init, k);
    }
  }

  /** The keys of that dictionary in iteration order: each name once, in the
      order of its first entry. */
  function SkillNames(skills: seq<Skill>): (names: seq<string>)
    ensures forall i, j :: 0 <= i < j < |names| ==> names[i] != names[j]
    ensures forall n :: n in names <==> n in SkillTable(skills)
  {
    if skills == [] then []
    else
      var init := SkillNames(skills[..|skills| - 1]);
      assert SkillTable(skills).Keys == SkillTable(skills[..|skills| - 1]).Keys + {skills[|skills| - 1].name};
      var name := skills[|skills| - 1].name;
      if name in init then init else init + [name]
  }

  /** A sequence without repetitions has as many elements as its set. */
  lemma {:induction false} DistinctCardinality(names: seq<string>)
    requires forall i, j :: 0 <= i < j < |names| ==> names[i] != names[j]
    ensures |set n | n in names| == |names|
  {
    if names != [] {
      var rest := names[1..];
      DistinctCardinality(rest);
      assert names[0] !in rest;
      assert (set n | n in names) == (set n | n in rest) + {names[0]};
    }
  }

  /** The dictionary has as many keys as its iteration order has names. */
  lemma SkillNamesCount(skills: seq<Skill>)
    ensures |SkillNames(skills)| == |SkillTable(skills)|
  {
    var names := SkillNames(skills);
    DistinctCardinality(names);
    assert (set n | n in names) == SkillTable(skills).Keys;
  }

  /** The candidate's degree titles, an absent title read as the empty string. */
  function CandidateDegrees(candidate: Candidate): seq<string> {
    seq(|candidate.education|, k requires 0 <= k < |candidate.education| =>
      candidate.education[k].degree.GetOr(""))
  }
}
