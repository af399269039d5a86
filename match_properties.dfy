/** What `_compute_match` promises, proved of `Matching.ComputeMatch`. */
module MatchProperties {
  import opened PyStr
  import opened Sorting
  import opened Records
  import opened Matching

  /** The two sorted lists of one category split it in two. */
  lemma CategoryPartition(matched: seq<string>, missing: seq<string>, category: set<string>, pool: set<string>)
    requires IsSortedListOf(matched, category * pool) && IsSortedListOf(missing, category - pool)
    ensures Elems(matched) !! Elems(missing)
    ensures Elems(matched) + Elems(missing) == category
    ensures |matched| + |missing| == |category|
  {
    SortedLength(matched);
    SortedLength(missing);
    assert category == (category * pool) + (category - pool);
  }

  /** Matched and missing split each lowercase job category in two: they
      share nothing and together are the whole category. */
  lemma MatchPartition(jd: JDInfo, resume: ResumeInfo)
    ensures var m := ComputeMatch(jd, resume);
      Elems(m.matchedRequiredSkills) !! Elems(m.missingRequiredSkills) &&
      Elems(m.matchedRequiredSkills) + Elems(m.missingRequiredSkills) == LowerSet(jd.requiredSkills) &&
      |m.matchedRequiredSkills| + |m.missingRequiredSkills| == |LowerSet(jd.requiredSkills)| &&
      Elems(m.matchedNiceToHave) !! Elems(m.missingNiceToHave) &&
      Elems(m.matchedNiceToHave) + Elems(m.missingNiceToHave) == LowerSet(jd.niceToHaveSkills) &&
      |m.matchedNiceToHave| + |m.missingNiceToHave| == |LowerSet(jd.niceToHaveSkills)|
  {
    var m := ComputeMatch(jd, resume);
    var pool := ResumeSkillSet(resume);
    CategoryPartition(m.matchedRequiredSkills, m.missingRequiredSkills, LowerSet(jd.requiredSkills), pool);
    CategoryPartition(m.matchedNiceToHave, m.missingNiceToHave, LowerSet(jd.niceToHaveSkills), pool);
  }

  /** A job skill is matched exactly when its lowercase form is the
      lowercase form of some skill or tool of the resume. */
  lemma MatchIsCaseInsensitive(jd: JDInfo, resume: ResumeInfo, x: string)
    ensures x in ComputeMatch(jd, resume).matchedRequiredSkills <==>
      (exists j :: j in jd.requiredSkills && Lower(j) == x) &&
      (exists s :: s in resume.skills + resume.tools && Lower(s) == x)
    ensures x in ComputeMatch(jd, resume).matchedNiceToHave <==>
      (exists j :: j in jd.niceToHaveSkills && Lower(j) == x) &&
      (exists s :: s in resume.skills + resume.tools && Lower(s) == x)
  {
    var m := ComputeMatch(jd, resume);
    assert x in m.matchedRequiredSkills <==> x in Elems(m.matchedRequiredSkills);
    assert x in m.matchedNiceToHave <==> x in Elems(m.matchedNiceToHave);
  }

  /** "Python" asked for and "python" claimed is a match. */
  lemma SkillsEqualUpToCaseMatch(jd: JDInfo, resume: ResumeInfo, asked: string, claimed: string)
    requires asked in jd.requiredSkills
    requires claimed in resume.skills || claimed in resume.tools
    requires Lower(asked) == Lower(claimed)
    ensures Lower(asked) in ComputeMatch(jd, resume).matchedRequiredSkills
    ensures Lower(asked) !in ComputeMatch(jd, resume).missingRequiredSkills
  {
    assert claimed in resume.skills + resume.tools;
    MatchIsCaseInsensitive(jd, resume, Lower(asked));
    var m := ComputeMatch(jd, resume);
    assert Lower(asked) in m.missingRequiredSkills <==> Lower(asked) in Elems(m.missingRequiredSkills);
  }

  /** The only sorted list of the empty set is the empty list. */
  lemma SortedListOfNothing(r: seq<string>)
    requires IsSortedListOf(r, {})
    ensures r == []
  {
    SortedLength(r);
  }

  /** An empty category counts as fully satisfied, whatever the resume. */
  lemma EmptyCategoryIsSatisfied(jd: JDInfo, resume: ResumeInfo)
    ensures jd.requiredSkills == [] ==>
      RequiredScore(jd, resume) == 1.0 &&
      ComputeMatch(jd, resume).requiredMatchFraction == 1.0 &&
      ComputeMatch(jd, resume).matchedRequiredSkills == [] &&
      ComputeMatch(jd, resume).missingRequiredSkills == []
    ensures jd.niceToHaveSkills == [] ==>
      NiceScore(jd, resume) == 1.0 &&
      ComputeMatch(jd, resume).niceToHaveMatchFraction == 1.0 &&
      ComputeMatch(jd, resume).matchedNiceToHave == [] &&
      ComputeMatch(jd, resume).missingNiceToHave == []
  {
    var m := ComputeMatch(jd, resume);
    if jd.requiredSkills == [] {
      SortedListOfNothing(m.matchedRequiredSkills);
      SortedListOfNothing(m.missingRequiredSkills);
    }
    if jd.niceToHaveSkills == [] {
      SortedListOfNothing(m.matchedNiceToHave);
      SortedListOfNothing(m.missingNiceToHave);
    }
  }

  /** The matched lists hold exactly the counted skills. */
  lemma MatchedCounts(jd: JDInfo, resume: ResumeInfo)
    ensures |ComputeMatch(jd, resume).matchedRequiredSkills| ==
      |LowerSet(jd.requiredSkills) * ResumeSkillSet(resume)|
    ensures |ComputeMatch(jd, resume).matchedNiceToHave| ==
      |LowerSet(jd.niceToHaveSkills) * ResumeSkillSet(resume)|
  {
    var m := ComputeMatch(jd, resume);
    SortedLength(m.matchedRequiredSkills);
    SortedLength(m.matchedNiceToHave);
  }

  /** For a non-empty category, the required fraction is the length of the
      reported matched list over the category's size. */
  lemma RequiredShareIsMatchedCount(jd: JDInfo, resume: ResumeInfo)
    ensures LowerSet(jd.requiredSkills) != {} ==>
      RequiredScore(jd, resume) ==
      |ComputeMatch(jd, resume).matchedRequiredSkills| as real / |LowerSet(jd.requiredSkills)| as real
  {
    SortedLength(ComputeMatch(jd, resume).matchedRequiredSkills);
  }

  /** For a non-empty category, the nice-to-have fraction is the length of
      the reported matched list over the category's size. */
  lemma NiceShareIsMatchedCount(jd: JDInfo, resume: ResumeInfo)
    ensures LowerSet(jd.niceToHaveSkills) != {} ==>
      NiceScore(jd, resume) ==
      |ComputeMatch(jd, resume).matchedNiceToHave| as real / |LowerSet(jd.niceToHaveSkills)| as real
  {
    SortedLength(ComputeMatch(jd, resume).matchedNiceToHave);
  }

  /** Each fraction lies in [0, 1], and for a non-empty category it is
      |matched| / |category| for the reported matched list. */
  lemma FractionIsShareOfCategory(jd: JDInfo, resume: ResumeInfo)
    ensures 0.0 <= RequiredScore(jd, resume) <= 1.0 && 0.0 <= NiceScore(jd, resume) <= 1.0
    ensures LowerSet(jd.requiredSkills) != {} ==>
      RequiredScore(jd, resume) ==
      |ComputeMatch(jd, resume).matchedRequiredSkills| as real / |LowerSet(jd.requiredSkills)| as real
    ensures LowerSet(jd.niceToHaveSkills) != {} ==>
      NiceScore(jd, resume) ==
      |ComputeMatch(jd, resume).matchedNiceToHave| as real / |LowerSet(jd.niceToHaveSkills)| as real
  {
    RequiredShareIsMatchedCount(jd, resume);
    NiceShareIsMatchedCount(jd, resume);
  }

  /** A category's fraction is 1 exactly when the resume covers all of it. */
  lemma FullFractionIffCovered(jd: JDInfo, resume: ResumeInfo)
    ensures RequiredScore(jd, resume) == 1.0 <==> LowerSet(jd.requiredSkills) <= ResumeSkillSet(resume)
    ensures NiceScore(jd, resume) == 1.0 <==> LowerSet(jd.niceToHaveSkills) <= ResumeSkillSet(resume)
  {
    var pool := ResumeSkillSet(resume);
    var req, nice := LowerSet(jd.requiredSkills), LowerSet(jd.niceToHaveSkills);
    CoveredIffSameSize(req, pool);
    CoveredIffSameSize(nice, pool);
  }

  lemma CoveredIffSameSize(a: set<string>, pool: set<string>)
    ensures |a * pool| == |a| <==> a <= pool
  {
    if |a * pool| == |a| && !(a <= pool) {
      var x :| x in a && x !in pool;
      SubsetCard(a * pool, a - {x});
      assert false;
    }
    if a <= pool {
      assert a * pool == a;
    }
  }

  /** The score is an integer from 0 to 100, and 100 when the resume covers
      every required and every nice-to-have skill. */
  lemma ScoreBounds(jd: JDInfo, resume: ResumeInfo)
    ensures 0 <= ComputeMatch(jd, resume).overallScore <= 100
    ensures LowerSet(jd.requiredSkills) <= ResumeSkillSet(resume) &&
            LowerSet(jd.niceToHaveSkills) <= ResumeSkillSet(resume) ==>
      ComputeMatch(jd, resume).overallScore == 100 &&
      ComputeMatch(jd, resume).missingRequiredSkills == [] &&
      ComputeMatch(jd, resume).missingNiceToHave == []
  {
    FullFractionIffCovered(jd, resume);
    var m := ComputeMatch(jd, resume);
    var pool := ResumeSkillSet(resume);
    if LowerSet(jd.requiredSkills) <= pool && LowerSet(jd.niceToHaveSkills) <= pool {
      SortedListOfNothing(m.missingRequiredSkills);
      SortedListOfNothing(m.missingNiceToHave);
    }
  }

  /** A score of 0 needs both categories to be non-empty: an empty one alone
      is worth 70 or 30 points. */
  lemma ZeroScoreNeedsBothCategories(jd: JDInfo, resume: ResumeInfo)
    requires ComputeMatch(jd, resume).overallScore == 0
    ensures LowerSet(jd.requiredSkills) != {} && LowerSet(jd.niceToHaveSkills) != {}
  {
    FractionIsShareOfCategory(jd, resume);
  }

  /** Both categories non-empty and nothing matched: the score is 0. */
  lemma NothingMatchedScoresZero(jd: JDInfo, resume: ResumeInfo)
    requires LowerSet(jd.requiredSkills) != {} && LowerSet(jd.niceToHaveSkills) != {}
    requires ComputeMatch(jd, resume).matchedRequiredSkills == []
    requires ComputeMatch(jd, resume).matchedNiceToHave == []
    ensures ComputeMatch(jd, resume).overallScore == 0
  {
    FractionIsShareOfCategory(jd, resume);
  }

  /** A share `f` of `total` items that covers `covered >= 1` of them, with
      fewer than `2 * weight` items, is worth more than half a point at that
      weight. */
  lemma ShareWorthMoreThanHalf(f: real, covered: real, total: real, weight: real)
    requires f * total == covered && 1.0 <= covered <= total < 2.0 * weight
    ensures weight * f > 0.5
  {
    var d := 2.0 * weight - total;
    assert f > 0.0;
    assert f * d > 0.0;
    calc {
      2.0 * (weight * f);
    ==
      f * (total + d);
    ==
      f * total + f * d;
    >
      1.0;
    }
  }

  /** A category with at least one covered skill: its score times its size
      is at least one. */
  lemma CoveredShareAtLeastOne(skills: seq<string>, pool: set<string>)
    requires LowerSet(skills) * pool != {}
    ensures |LowerSet(skills)| > 0
    ensures CategoryScore(skills, pool) * |LowerSet(skills)| as real >= 1.0
  {
    var category := LowerSet(skills);
    SubsetCard(category * pool, category);
  }

  /** A covered category of fewer than 140 skills is worth more than half a
      point at the required-skill weight of 70. */
  lemma CoveredRequiredWorthHalf(skills: seq<string>, pool: set<string>)
    requires LowerSet(skills) * pool != {}
    requires |LowerSet(skills)| < 140
    ensures 70.0 * CategoryScore(skills, pool) > 0.5
  {
    var category := LowerSet(skills);
    SubsetCard(category * pool, category);
    ShareWorthMoreThanHalf(CategoryScore(skills, pool), |category * pool| as real, |category| as real, 70.0);
  }

  /** A covered category of fewer than 60 skills is worth more than half a
      point at the nice-to-have weight of 30. */
  lemma CoveredNiceWorthHalf(skills: seq<string>, pool: set<string>)
    requires LowerSet(skills) * pool != {}
    requires |LowerSet(skills)| < 60
    ensures 30.0 * CategoryScore(skills, pool) > 0.5
  {
    var category := LowerSet(skills);
    SubsetCard(category * pool, category);
    ShareWorthMoreThanHalf(CategoryScore(skills, pool), |category * pool| as real, |category| as real, 30.0);
  }

  /** A zero score with fewer than 140 required skills: none is covered. */
  lemma ZeroScoreMeansNoRequiredCoverage(jd: JDInfo, resume: ResumeInfo)
    requires OverallScore(RequiredScore(jd, resume), NiceScore(jd, resume)) == 0
    requires |LowerSet(jd.requiredSkills)| < 140
    ensures LowerSet(jd.requiredSkills) * ResumeSkillSet(resume) == {}
  {
    var r, n := RequiredScore(jd, resume), NiceScore(jd, resume);
    assert 70.0 * r + 30.0 * n <= 0.5 && n >= 0.0;
    if LowerSet(jd.requiredSkills) * ResumeSkillSet(resume) != {} {
      CoveredRequiredWorthHalf(jd.requiredSkills, ResumeSkillSet(resume));
      assert false;
    }
  }

  /** A zero score with fewer than 60 nice-to-have skills: none is covered. */
  lemma ZeroScoreMeansNoNiceCoverage(jd: JDInfo, resume: ResumeInfo)
    requires OverallScore(RequiredScore(jd, resume), NiceScore(jd, resume)) == 0
    requires |LowerSet(jd.niceToHaveSkills)| < 60
    ensures LowerSet(jd.niceToHaveSkills) * ResumeSkillSet(resume) == {}
  {
    var r, n := RequiredScore(jd, resume), NiceScore(jd, resume);
    assert 70.0 * r + 30.0 * n <= 0.5 && r >= 0.0;
    if LowerSet(jd.niceToHaveSkills) * ResumeSkillSet(resume) != {} {
      CoveredNiceWorthHalf(jd.niceToHaveSkills, ResumeSkillSet(resume));
      assert false;
    }
  }

  /** On the scores alone: a zero score over small categories means the
      resume covers none of either category. */
  lemma ZeroScoreMeansNoCoverage(jd: JDInfo, resume: ResumeInfo)
    requires OverallScore(RequiredScore(jd, resume), NiceScore(jd, resume)) == 0
    requires |LowerSet(jd.requiredSkills)| < 140 && |LowerSet(jd.niceToHaveSkills)| < 60
    ensures LowerSet(jd.requiredSkills) * ResumeSkillSet(resume) == {}
    ensures LowerSet(jd.niceToHaveSkills) * ResumeSkillSet(resume) == {}
  {
    ZeroScoreMeansNoRequiredCoverage(jd, resume);
    ZeroScoreMeansNoNiceCoverage(jd, resume);
  }

  /** The converse of `NothingMatchedScoresZero` holds for categories of
      fewer than 140 required and 60 nice-to-have skills: below those sizes
      a single match is worth more than half a point. */
  lemma ZeroScoreMeansNothingMatched(jd: JDInfo, resume: ResumeInfo)
    requires ComputeMatch(jd, resume).overallScore == 0
    requires |LowerSet(jd.requiredSkills)| < 140 && |LowerSet(jd.niceToHaveSkills)| < 60
    ensures ComputeMatch(jd, resume).matchedRequiredSkills == []
    ensures ComputeMatch(jd, resume).matchedNiceToHave == []
  {
    var m := ComputeMatch(jd, resume);
    ZeroScoreMeansNoCoverage(jd, resume);
    SortedListOfNothing(m.matchedRequiredSkills);
    SortedListOfNothing(m.matchedNiceToHave);
  }

  /** Without the size bound the converse fails: one match among 140
      required skills is worth exactly half a point, which rounds to the even
      0, and among 141 less than half a point. */
  lemma OneMatchCanScoreZero()
    ensures OverallScore(Fraction(1, 140), Fraction(0, 1)) == 0
    ensures OverallScore(Fraction(1, 141), Fraction(0, 1)) == 0
    ensures OverallScore(Fraction(1, 139), Fraction(0, 1)) == 1
  {
    assert 70.0 * Fraction(1, 140) == 0.5;
    assert 70.0 * Fraction(1, 139) > 0.5;
  }

  /** The tie rule: 1 of 4 required gives 17.5, which rounds to 18; 3 of 4
      gives 52.5, which rounds to 52; `round(0.0625, 3)` is 0.062. */
  lemma TiesRoundToEven()
    ensures OverallScore(Fraction(1, 4), Fraction(0, 1)) == 18
    ensures OverallScore(Fraction(3, 4), Fraction(0, 1)) == 52
    ensures Round3(Fraction(1, 16)) == 0.062
  {
    assert 70.0 * Fraction(1, 4) == 17.5;
    assert 70.0 * Fraction(3, 4) == 52.5;
    assert Fraction(1, 16) * 1000.0 == 62.5;
  }

  /** The result depends on the job only through the lowercase sets of its
      two skill lists and on the resume only through its lowercase pool:
      not on order, repeats, case, or any other field. */
  lemma MatchDependsOnlyOnSkillSets(jd1: JDInfo, resume1: ResumeInfo, jd2: JDInfo, resume2: ResumeInfo)
    requires LowerSet(jd1.requiredSkills) == LowerSet(jd2.requiredSkills)
    requires LowerSet(jd1.niceToHaveSkills) == LowerSet(jd2.niceToHaveSkills)
    requires ResumeSkillSet(resume1) == ResumeSkillSet(resume2)
    ensures ComputeMatch(jd1, resume1) == ComputeMatch(jd2, resume2)
  {
    var m1, m2 := ComputeMatch(jd1, resume1), ComputeMatch(jd2, resume2);
    var pool := ResumeSkillSet(resume1);
    var req, nice := LowerSet(jd1.requiredSkills), LowerSet(jd1.niceToHaveSkills);
    SortedListUnique(m1.matchedRequiredSkills, m2.matchedRequiredSkills, req * pool);
    SortedListUnique(m1.missingRequiredSkills, m2.missingRequiredSkills, req - pool);
    SortedListUnique(m1.matchedNiceToHave, m2.matchedNiceToHave, nice * pool);
    SortedListUnique(m1.missingNiceToHave, m2.missingNiceToHave, nice - pool);
  }

  /** Skills and tools are one pool: swapping them changes nothing, nor do
      the title, company, location, responsibilities, keywords, name or
      headline. */
  lemma SkillsAndToolsArePooled(jd: JDInfo, resume: ResumeInfo, jd': JDInfo, resume': ResumeInfo)
    requires jd'.requiredSkills == jd.requiredSkills && jd'.niceToHaveSkills == jd.niceToHaveSkills
    requires resume'.skills == resume.tools && resume'.tools == resume.skills
    ensures ComputeMatch(jd', resume') == ComputeMatch(jd, resume)
  {
    var a, b := resume.skills, resume.tools;
    assert forall s :: s in a + b <==> s in b + a;
    assert ResumeSkillSet(resume') == ResumeSkillSet(resume);
    MatchDependsOnlyOnSkillSets(jd', resume', jd, resume);
  }
}
