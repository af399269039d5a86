/** `run_jobmatch_agent` of src/agent.py: extract the job record, extract the
    resume record, score the overlap, ask for advice, and report all four.
    Each language-model call (`_call_llm_json` on the prompt built from its
    inputs) is a parameter: a function from the call's inputs to the value
    `json.loads` made of the reply, or the exception the call raised. */
module Pipeline {
  import opened Wrappers
  import opened Json
  import opened Records
  import opened Matching

  /** What can go wrong inside `_call_llm_json` itself. */
  datatype CallError =
      /** The chat-completion request raised (network, authentication, quota). */
    | RequestFailed
      /** `json.loads` rejected the reply's content. */
    | InvalidJson

  datatype Stage = JDExtraction | ResumeExtraction | AdviceGeneration

  /** The exception that ends a run, with the step that raised it. */
  datatype AgentError =
    | CallFailed(stage: Stage, reason: CallError)
      /** The reply parsed but is not an object, so `data.get` raises. */
    | ReplyNotAnObject(stage: Stage)
    | RecordFailed(stage: Stage, field: FieldError)

  /** The dict `run_jobmatch_agent` returns. */
  datatype JobMatchReport = JobMatchReport(
    jd: JDInfo, resume: ResumeInfo, matchInfo: MatchResult, advice: JsonValue)

  /** The dict the builder calls `.get` on. */
  function ReplyObject(reply: Result<JsonValue, CallError>, stage: Stage): (r: Result<JsonMap, AgentError>)
    ensures r.Success? <==> reply.Success? && reply.value.JObject?
    ensures r.Success? ==> r.value == ObjectMap(reply.value.members)
    ensures reply.Failure? ==> r == Failure(CallFailed(stage, reply.error))
    ensures reply.Success? && !reply.value.JObject? ==> r == Failure(ReplyNotAnObject(stage))
  {
    match reply
    case Failure(e) => Failure(CallFailed(stage, e))
    case Success(v) =>
      if v.JObject? then Success(ObjectMap(v.members)) else Failure(ReplyNotAnObject(stage))
  }

  /** `_extract_jd_info` after its call: the record built from the reply. */
  function ExtractJD(reply: Result<JsonValue, CallError>): (r: Result<JDInfo, AgentError>)
    ensures r.Success? <==>
      ReplyObject(reply, JDExtraction).Success? && BuildJDInfo(ReplyObject(reply, JDExtraction).value).Success?
    ensures r.Success? ==> r.value == BuildJDInfo(ReplyObject(reply, JDExtraction).value).value
    ensures r.Failure? ==> r.error.stage == JDExtraction
    ensures ReplyObject(reply, JDExtraction).Failure? ==> r == Failure(ReplyObject(reply, JDExtraction).error)
    ensures ReplyObject(reply, JDExtraction).Success? && BuildJDInfo(ReplyObject(reply, JDExtraction).value).Failure? ==>
      r == Failure(RecordFailed(JDExtraction, BuildJDInfo(ReplyObject(reply, JDExtraction).value).error))
  {
    var data :- ReplyObject(reply, JDExtraction);
    match BuildJDInfo(data)
    case Failure(e) => Failure(RecordFailed(JDExtraction, e))
    case Success(jd) => Success(jd)
  }

  /** `_extract_resume_info` after its call: the record built from the reply. */
  function ExtractResume(reply: Result<JsonValue, CallError>): (r: Result<ResumeInfo, AgentError>)
    ensures r.Success? <==>
      ReplyObject(reply, ResumeExtraction).Success? && BuildResumeInfo(ReplyObject(reply, ResumeExtraction).value).Success?
    ensures r.Success? ==> r.value == BuildResumeInfo(ReplyObject(reply, ResumeExtraction).value).value
    ensures r.Failure? ==> r.error.stage == ResumeExtraction
    ensures ReplyObject(reply, ResumeExtraction).Failure? ==> r == Failure(ReplyObject(reply, ResumeExtraction).error)
    ensures ReplyObject(reply, ResumeExtraction).Success? && BuildResumeInfo(ReplyObject(reply, ResumeExtraction).value).Failure? ==>
      r == Failure(RecordFailed(ResumeExtraction, BuildResumeInfo(ReplyObject(reply, ResumeExtraction).value).error))
  {
    var data :- ReplyObject(reply, ResumeExtraction);
    match BuildResumeInfo(data)
    case Failure(e) => Failure(RecordFailed(ResumeExtraction, e))
    case Success(resume) => Success(resume)
  }

  /** The four steps in order; the first one that raises ends the run. */
  function RunJobMatchAgent(
    jdText: string, resumeText: string,
    callExtractJD: string -> Result<JsonValue, CallError>,
    callExtractResume: string -> Result<JsonValue, CallError>,
    callAdvice: (JDInfo, ResumeInfo, string, string) -> Result<JsonValue, CallError>)
    : (r: Result<JobMatchReport, AgentError>)
    ensures ExtractJD(callExtractJD(jdText)).Failure? ==>
      r == Failure(ExtractJD(callExtractJD(jdText)).error)
    ensures ExtractJD(callExtractJD(jdText)).Success? && ExtractResume(callExtractResume(resumeText)).Failure? ==>
      r == Failure(ExtractResume(callExtractResume(resumeText)).error)
    ensures r.Success? <==>
      ExtractJD(callExtractJD(jdText)).Success? &&
      ExtractResume(callExtractResume(resumeText)).Success? &&
      callAdvice(ExtractJD(callExtractJD(jdText)).value,
                 ExtractResume(callExtractResume(resumeText)).value, jdText, resumeText).Success?
    ensures r.Success? ==>
      var jd := ExtractJD(callExtractJD(jdText)).value;
      var resume := ExtractResume(callExtractResume(resumeText)).value;
      r.value == JobMatchReport(jd, resume, ComputeMatch(jd, resume),
                                callAdvice(jd, resume, jdText, resumeText).value)
    ensures ExtractJD(callExtractJD(jdText)).Success? && ExtractResume(callExtractResume(resumeText)).Success? ==>
      var advice := callAdvice(ExtractJD(callExtractJD(jdText)).value,
                               ExtractResume(callExtractResume(resumeText)).value, jdText, resumeText);
      advice.Failure? ==> r == Failure(CallFailed(AdviceGeneration, advice.error))
  {
    var jdInfo :- ExtractJD(callExtractJD(jdText));
    var resumeInfo :- ExtractResume(callExtractResume(resumeText));
    var matchInfo := ComputeMatch(jdInfo, resumeInfo);
    match callAdvice(jdInfo, resumeInfo, jdText, resumeText)
    case Failure(e) => Failure(CallFailed(AdviceGeneration, e))
    case Success(advice) => Success(JobMatchReport(jdInfo, resumeInfo, matchInfo, advice))
  }

  /** In a report that comes back, both records are trimmed, the score is in
      0..100, and the match is the scorer's on the two records. */
  lemma ReportIsConsistent(
    jdText: string, resumeText: string,
    callExtractJD: string -> Result<JsonValue, CallError>,
    callExtractResume: string -> Result<JsonValue, CallError>,
    callAdvice: (JDInfo, ResumeInfo, string, string) -> Result<JsonValue, CallError>)
    requires RunJobMatchAgent(jdText, resumeText, callExtractJD, callExtractResume, callAdvice).Success?
    ensures
      var report := RunJobMatchAgent(jdText, resumeText, callExtractJD, callExtractResume, callAdvice).value;
      JDStripped(report.jd) && ResumeStripped(report.resume) &&
      0 <= report.matchInfo.overallScore <= 100 &&
      report.matchInfo == ComputeMatch(report.jd, report.resume)
  {
  }

  /** The advice never feeds back into the records or the match: two runs
      whose advice calls both answer report the same records and match. */
  lemma AdviceDoesNotChangeMatch(
    jdText: string, resumeText: string,
    callExtractJD: string -> Result<JsonValue, CallError>,
    callExtractResume: string -> Result<JsonValue, CallError>,
    callAdvice1: (JDInfo, ResumeInfo, string, string) -> Result<JsonValue, CallError>,
    callAdvice2: (JDInfo, ResumeInfo, string, string) -> Result<JsonValue, CallError>)
    requires RunJobMatchAgent(jdText, resumeText, callExtractJD, callExtractResume, callAdvice1).Success?
    requires RunJobMatchAgent(jdText, resumeText, callExtractJD, callExtractResume, callAdvice2).Success?
    ensures
      var r1 := RunJobMatchAgent(jdText, resumeText, callExtractJD, callExtractResume, callAdvice1).value;
      var r2 := RunJobMatchAgent(jdText, resumeText, callExtractJD, callExtractResume, callAdvice2).value;
      r1.jd == r2.jd && r1.resume == r2.resume && r1.matchInfo == r2.matchInfo
  {
  }
}
