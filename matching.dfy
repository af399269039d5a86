/** `_compute_match` of src/agent.py: the overlap between the skills a job
    asks for and the skills and tools a resume claims, as sorted
    matched/missing lists, two fractions and a 70/30 weighted score.
    Fractions are exact rationals; the rounding rule is stated once, in
    `RoundHalfEven`. */
module Matching {
  import opened PyStr
  import opened Sorting
  import opened Records

  datatype MatchResult = MatchResult(
    overallScore: int,
    requiredMatchFraction: real,
    niceToHaveMatchFraction: real,
    matchedRequiredSkills: seq<string>,
    missingRequiredSkills: seq<string>,
    matchedNiceToHave: seq<string>,
    missingNiceToHave: seq<string>)

  // ---------- normalisation ----------

  /** `{s.lower() for s in xs}`: every skill lowercased, repeats merged. */
  function LowerSet(xs: seq<string>): (r: set<string>)
    ensures forall s :: s in xs ==> Lower(s) in r
    ensures forall x :: x in r ==> exists s :: s in xs && Lower(s) == x
    ensures forall x :: x in r ==> HasNoUpper(x)
    ensures |r| <= |xs|
    ensures r == {} <==> xs == []
  {
    var r := set s | s in xs :: Lower(s);
    assert xs != [] ==> Lower(xs[0]) in r;
    forall x | x in r ensures HasNoUpper(x) {
      var s :| s in xs && Lower(s) == x;
      LowerIdempotent(s);
    }
    LowerSetSize(xs);
    r
  }

  lemma {:induction false} LowerSetSize(xs: seq<string>)
    ensures |set s | s in xs :: Lower(s)| <= |xs|
  {
    if xs != [] {
      var init := xs[..|xs| - 1];
      LowerSetSize(init);
      assert (set s | s in xs :: Lower(s)) ==
        (set s | s in init :: Lower(s)) + {Lower(xs[|xs| - 1])} by {
        assert xs == init + [xs[|xs| - 1]];
      }
    }
  }

  /** The skills lowercased one by one; as a collection it is `LowerSet`. */
  function LowerAll(xs: seq<string>): (ys: seq<string>)
    ensures |ys| == |xs| && forall i :: 0 <= i < |xs| ==> ys[i] == Lower(xs[i])
    ensures Elems(ys) == LowerSet(xs)
  {
    var ys := seq(|xs|, i requires 0 <= i < |xs| => Lower(xs[i]));
    forall x | x in LowerSet(xs) ensures x in Elems(ys) {
      var s :| s in xs && Lower(s) == x;
      var i :| 0 <= i < |xs| && xs[i] == s;
      assert ys[i] == x;
    }
    ys
  }

  /** `{s.lower() for s in (resume.skills + resume.tools)}`: one pool. */
  function ResumeSkillSet(resume: ResumeInfo): (pool: set<string>)
    ensures pool == LowerSet(resume.skills) + LowerSet(resume.tools)
  {
    var all := resume.skills + resume.tools;
    assert forall s :: s in all <==> s in resume.skills || s in resume.tools;
    LowerSet(all)
  }

  // ---------- arithmetic ----------

  /** `matched / total if total else 1.0`, exactly: an empty category is
      fully satisfied. */
  function Fraction(matched: nat, total: nat): (f: real)
    requires matched <= total
    ensures 0.0 <= f <= 1.0
    ensures total == 0 ==> f == 1.0
    ensures total > 0 ==> f * total as real == matched as real
    ensures total > 0 ==> (f == 1.0 <==> matched == total) && (f == 0.0 <==> matched == 0)
  {
    if total == 0 then 1.0 else matched as real / total as real
  }

  /** Python's `round(x)`: the nearest integer, a tie going to the even
      neighbour. Applied here to the exact value, not to a float. */
  function RoundHalfEven(x: real): (n: int)
    ensures n as real - 0.5 <= x <= n as real + 0.5
    ensures (x == n as real - 0.5 || x == n as real + 0.5) ==> n % 2 == 0
  {
    var f := x.Floor;
    var d := x - f as real;
    if d < 0.5 then f
    else if d > 0.5 then f + 1
    else if f % 2 == 0 then f
    else f + 1
  }

  /** The two properties of `RoundHalfEven` single out one integer. */
  lemma RoundHalfEvenUnique(x: real, m: int)
    requires m as real - 0.5 <= x <= m as real + 0.5
    requires (x == m as real - 0.5 || x == m as real + 0.5) ==> m % 2 == 0
    ensures m == RoundHalfEven(x)
  {
  }

  /** `round(x, 3)`: the nearest multiple of 1/1000, a tie going to the even
      multiple. Reporting only; the score never sees it. */
  function Round3(x: real): (y: real)
    ensures -0.0005 <= y - x <= 0.0005
    ensures (y * 1000.0).Floor as real == y * 1000.0
    ensures (x * 1000.0 == y * 1000.0 - 0.5 || x * 1000.0 == y * 1000.0 + 0.5) ==>
      (y * 1000.0).Floor % 2 == 0
    ensures 0.0 <= x <= 1.0 ==> 0.0 <= y <= 1.0
    ensures x == 1.0 ==> y == 1.0
    ensures x == 0.0 ==> y == 0.0
  {
    var k := RoundHalfEven(x * 1000.0);
    var y := k as real / 1000.0;
    Round3Facts(x, k, y);
    y
  }

  /** The arithmetic behind `Round3`, one step at a time. */
  lemma Round3Facts(x: real, k: int, y: real)
    requires k as real - 0.5 <= x * 1000.0 <= k as real + 0.5
    requires y == k as real / 1000.0
    ensures y * 1000.0 == k as real
    ensures -0.0005 <= y - x <= 0.0005
    ensures 0.0 <= x <= 1.0 ==> 0 <= k <= 1000
    ensures 0.0 <= x <= 1.0 ==> 0.0 <= y <= 1.0
    ensures x == 1.0 ==> k == 1000
    ensures x == 0.0 ==> k == 0
  {
    assert y * 1000.0 == k as real;
    assert y - x == (k as real - x * 1000.0) / 1000.0;
  }

  /** `round((required_score * 0.7 + nice_score * 0.3) * 100)`. */
  function OverallScore(requiredScore: real, niceScore: real): (n: int)
    requires 0.0 <= requiredScore <= 1.0 && 0.0 <= niceScore <= 1.0
    ensures 0 <= n <= 100
    ensures n as real - 0.5 <= 70.0 * requiredScore + 30.0 * niceScore <= n as real + 0.5
    ensures (70.0 * requiredScore + 30.0 * niceScore == n as real - 0.5 ||
             70.0 * requiredScore + 30.0 * niceScore == n as real + 0.5) ==> n % 2 == 0
    ensures requiredScore == 1.0 && niceScore == 1.0 ==> n == 100
  {
    RoundHalfEven(70.0 * requiredScore + 30.0 * niceScore)
  }

  // ---------- the scorer ----------

  lemma SubsetCard(a: set<string>, b: set<string>)
    requires a <= b
    ensures |a| <= |b|
  {
    assert b == a + (b - a);
  }

  /** The fraction of one job category that the resume's pool covers:
      |matched| / |category| over the lowercase set, 1 when it is empty. */
  function CategoryScore(skills: seq<string>, pool: set<string>): (f: real)
    ensures 0.0 <= f <= 1.0
    ensures skills == [] ==> f == 1.0
    ensures skills != [] ==> f * |LowerSet(skills)| as real == |LowerSet(skills) * pool| as real
  {
    var category := LowerSet(skills);
    SubsetCard(category * pool, category);
    Fraction(|category * pool|, |category|)
  }

  /** `required_score`: the share of the required skills the resume covers. */
  function RequiredScore(jd: JDInfo, resume: ResumeInfo): (f: real)
    ensures 0.0 <= f <= 1.0
    ensures jd.requiredSkills == [] ==> f == 1.0
    ensures jd.requiredSkills != [] ==>
      f == |LowerSet(jd.requiredSkills) * ResumeSkillSet(resume)| as real / |LowerSet(jd.requiredSkills)| as real
  {
    CategoryScore(jd.requiredSkills, ResumeSkillSet(resume))
  }

  /** `nice_score`: the share of the nice-to-have skills the resume covers. */
  function NiceScore(jd: JDInfo, resume: ResumeInfo): (f: real)
    ensures 0.0 <= f <= 1.0
    ensures jd.niceToHaveSkills == [] ==> f == 1.0
    ensures jd.niceToHaveSkills != [] ==>
      f == |LowerSet(jd.niceToHaveSkills) * ResumeSkillSet(resume)| as real / |LowerSet(jd.niceToHaveSkills)| as real
  {
    CategoryScore(jd.niceToHaveSkills, ResumeSkillSet(resume))
  }

  /** `sorted(category & pool)` and `sorted(category - pool)` for the
      lowercase set of one job category. */
  function SplitCategory(skills: seq<string>, pool: set<string>): (r: (seq<string>, seq<string>))
    ensures IsSortedListOf(r.0, LowerSet(skills) * pool)
    ensures IsSortedListOf(r.1, LowerSet(skills) - pool)
  {
    var category := SortedElems(LowerAll(skills));
    (Keep(category, pool), Drop(category, pool))
  }

  function ComputeMatch(jd: JDInfo, resume: ResumeInfo): (m: MatchResult)
    ensures IsSortedListOf(m.matchedRequiredSkills, LowerSet(jd.requiredSkills) * ResumeSkillSet(resume))
    ensures IsSortedListOf(m.missingRequiredSkills, LowerSet(jd.requiredSkills) - ResumeSkillSet(resume))
    ensures IsSortedListOf(m.matchedNiceToHave, LowerSet(jd.niceToHaveSkills) * ResumeSkillSet(resume))
    ensures IsSortedListOf(m.missingNiceToHave, LowerSet(jd.niceToHaveSkills) - ResumeSkillSet(resume))
    ensures m.overallScore == OverallScore(RequiredScore(jd, resume), NiceScore(jd, resume))
    ensures m.requiredMatchFraction == Round3(RequiredScore(jd, resume))
    ensures m.niceToHaveMatchFraction == Round3(NiceScore(jd, resume))
  {
    var resumeSkillset := ResumeSkillSet(resume);
    var (matchedRequired, missingRequired) := SplitCategory(jd.requiredSkills, resumeSkillset);
    var (matchedNice, missingNice) := SplitCategory(jd.niceToHaveSkills, resumeSkillset);
    var required := LowerSet(jd.requiredSkills);
    var nice := LowerSet(jd.niceToHaveSkills);

    SortedLength(matchedRequired);
    SortedLength(matchedNice);
    SubsetCard(required * resumeSkillset, required);
    SubsetCard(nice * resumeSkillset, nice);
    var requiredScore := Fraction(|matchedRequired|, |required|);
    var niceScore := Fraction(|matchedNice|, |nice|);

    MatchResult(
      OverallScore(requiredScore, niceScore),
      Round3(requiredScore),
      Round3(niceScore),
      matchedRequired, missingRequired, matchedNice, missingNice)
  }
}
