/** Two example inputs of `Matching.ComputeMatch`, with the whole result
    proved from its contract. The fields the scorer does not read are left
    free. */
module MatchExamples {
  import opened PyStr
  import opened Sorting
  import opened Records
  import opened Matching

  /** The result is fixed once the four lists are known to be the sorted
      lists of the four sets. */
  lemma MatchResultFromLists(jd: JDInfo, resume: ResumeInfo,
                             matchedReq: seq<string>, missingReq: seq<string>,
                             matchedNice: seq<string>, missingNice: seq<string>)
    requires IsSortedListOf(matchedReq, LowerSet(jd.requiredSkills) * ResumeSkillSet(resume))
    requires IsSortedListOf(missingReq, LowerSet(jd.requiredSkills) - ResumeSkillSet(resume))
    requires IsSortedListOf(matchedNice, LowerSet(jd.niceToHaveSkills) * ResumeSkillSet(resume))
    requires IsSortedListOf(missingNice, LowerSet(jd.niceToHaveSkills) - ResumeSkillSet(resume))
    ensures ComputeMatch(jd, resume) == MatchResult(
      OverallScore(RequiredScore(jd, resume), NiceScore(jd, resume)),
      Round3(RequiredScore(jd, resume)), Round3(NiceScore(jd, resume)),
      matchedReq, missingReq, matchedNice, missingNice)
  {
    var m := ComputeMatch(jd, resume);
    var pool := ResumeSkillSet(resume);
    var req, nice := LowerSet(jd.requiredSkills), LowerSet(jd.niceToHaveSkills);
    SortedListUnique(m.matchedRequiredSkills, matchedReq, req * pool);
    SortedListUnique(m.missingRequiredSkills, missingReq, req - pool);
    SortedListUnique(m.matchedNiceToHave, matchedNice, nice * pool);
    SortedListUnique(m.missingNiceToHave, missingNice, nice - pool);
  }

  /** The lowercase sets of the partial-match example. */
  lemma PartialMatchSets(jd: JDInfo, resume: ResumeInfo)
    requires jd.requiredSkills == ["python", "sql"] && jd.niceToHaveSkills == ["docker"]
    requires resume.skills == ["python"] && resume.tools == []
    ensures ResumeSkillSet(resume) == {"python"}
    ensures LowerSet(jd.requiredSkills) == {"python", "sql"}
    ensures LowerSet(jd.niceToHaveSkills) == {"docker"}
  {
    assert Lower("python") == "python" && Lower("sql") == "sql" && Lower("docker") == "docker";
    assert resume.skills + resume.tools == ["python"];
  }

  /** One of two required (0.5) and none of one nice (0.0) give
      round(0.5 * 70 + 0.0 * 30) = 35. */
  lemma PartialMatchNumbers(jd: JDInfo, resume: ResumeInfo)
    requires ResumeSkillSet(resume) == {"python"}
    requires LowerSet(jd.requiredSkills) == {"python", "sql"}
    requires LowerSet(jd.niceToHaveSkills) == {"docker"}
    ensures RequiredScore(jd, resume) == 0.5 && NiceScore(jd, resume) == 0.0
    ensures OverallScore(0.5, 0.0) == 35
    ensures Round3(0.5) == 0.5 && Round3(0.0) == 0.0
  {
    var pool := ResumeSkillSet(resume);
    var req, nice := LowerSet(jd.requiredSkills), LowerSet(jd.niceToHaveSkills);
    assert req * pool == {"python"} by { assert "python" != "sql"; }
    assert nice * pool == {} by { assert "docker" != "python"; }
    assert |req| == 2;
    assert RoundHalfEven(35.0) == 35;
    assert RoundHalfEven(500.0) == 500;
  }

  /** Required ["python", "sql"], nice ["docker"], resume skills ["python"]:
      one of two required (0.5), none of one nice (0.0), score
      round(0.5 * 70 + 0.0 * 30) = 35. */
  lemma PartialMatchExample(jd: JDInfo, resume: ResumeInfo)
    requires jd.requiredSkills == ["python", "sql"] && jd.niceToHaveSkills == ["docker"]
    requires resume.skills == ["python"] && resume.tools == []
    ensures ComputeMatch(jd, resume) ==
      MatchResult(35, 0.5, 0.0, ["python"], ["sql"], [], ["docker"])
  {
    PartialMatchSets(jd, resume);
    var pool := ResumeSkillSet(resume);
    var req, nice := LowerSet(jd.requiredSkills), LowerSet(jd.niceToHaveSkills);
    assert req * pool == {"python"} && req - pool == {"sql"} by {
      assert "python" != "sql";
    }
    assert nice * pool == {} && nice - pool == {"docker"} by {
      assert "docker" != "python";
    }
    MatchResultFromLists(jd, resume, ["python"], ["sql"], [], ["docker"]);
    PartialMatchNumbers(jd, resume);
  }

  /** `{"Python", "SQL"}` lowercased. */
  lemma LowerPythonSql()
    ensures LowerSet(["Python", "SQL"]) == {"python", "sql"}
  {
    assert Lower("Python") == "python" && Lower("SQL") == "sql";
  }

  /** `{"python", "sql", "java"}` is already lowercase. */
  lemma LowerPythonSqlJava()
    ensures LowerSet(["python", "sql", "java"]) == {"python", "sql", "java"}
  {
    assert Lower("python") == "python" && Lower("sql") == "sql" && Lower("java") == "java";
  }

  /** The lowercase sets of the full-match example. */
  lemma FullMatchSets(jd: JDInfo, resume: ResumeInfo)
    requires jd.requiredSkills == ["Python", "SQL"] && jd.niceToHaveSkills == []
    requires resume.skills == ["python", "sql", "java"] && resume.tools == []
    ensures LowerSet(jd.requiredSkills) == {"python", "sql"}
    ensures LowerSet(jd.niceToHaveSkills) == {}
    ensures ResumeSkillSet(resume) == {"python", "sql", "java"}
  {
    LowerPythonSql();
    LowerPythonSqlJava();
    assert resume.skills + resume.tools == ["python", "sql", "java"];
  }

  /** The sorted list of `{python, sql}`. */
  lemma SortedPythonSql()
    ensures IsSortedListOf(["python", "sql"], {"python", "sql"})
  {
    assert Less("python", "sql") by {
      LexicographicHeads("python", "sql");
    }
    assert Elems(["python", "sql"]) == {"python", "sql"};
  }

  /** Every skill covered gives fractions 1.0 and the score 100. */
  lemma FullMatchNumbers(jd: JDInfo, resume: ResumeInfo)
    requires LowerSet(jd.requiredSkills) <= ResumeSkillSet(resume)
    requires jd.niceToHaveSkills == []
    ensures RequiredScore(jd, resume) == 1.0 && NiceScore(jd, resume) == 1.0
    ensures OverallScore(1.0, 1.0) == 100 && Round3(1.0) == 1.0
  {
    var req := LowerSet(jd.requiredSkills);
    assert req * ResumeSkillSet(resume) == req;
  }

  /** Required ["Python", "SQL"] against resume skills ["python", "sql",
      "java"]: both matched despite the case, nothing missing, fraction 1.0. */
  lemma FullMatchExample(jd: JDInfo, resume: ResumeInfo)
    requires jd.requiredSkills == ["Python", "SQL"] && jd.niceToHaveSkills == []
    requires resume.skills == ["python", "sql", "java"] && resume.tools == []
    ensures ComputeMatch(jd, resume) ==
      MatchResult(100, 1.0, 1.0, ["python", "sql"], [], [], [])
  {
    FullMatchSets(jd, resume);
    var pool := ResumeSkillSet(resume);
    var req := LowerSet(jd.requiredSkills);
    assert req * pool == {"python", "sql"} && req - pool == {};
    SortedPythonSql();
    MatchResultFromLists(jd, resume, ["python", "sql"], [], [], []);
    FullMatchNumbers(jd, resume);
  }
}
