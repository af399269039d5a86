/** The two extracted records of src/agent.py (`JDInfo`, `ResumeInfo`) and the
    total builders that turn the model's parsed JSON reply into them:
    every field is `data.get(key, default)`, every string `.strip()`-ed and
    every list rebuilt as `[s.strip() for s in ...]`. */
module Records {
  import opened Wrappers
  import opened PyStr
  import opened Json

  datatype JDInfo = JDInfo(
    title: string,
    company: string,
    location: string,
    requiredSkills: seq<string>,
    niceToHaveSkills: seq<string>,
    responsibilities: seq<string>,
    keywords: seq<string>)

  datatype ResumeInfo = ResumeInfo(
    name: string,
    headline: string,
    skills: seq<string>,
    tools: seq<string>)

  /** The exception Python raises while a record is being built. */
  datatype FieldError =
      /** AttributeError: the value under `key` is not a `str`, so it has no `.strip()`. */
    | StripOnNonString(key: string)
      /** TypeError: the value under `key` is a number, a bool or null, which cannot be iterated. */
    | NotIterable(key: string)
      /** AttributeError: item `index` of the list under `key` is not a `str`. */
    | ElementNotString(key: string, index: nat)

  datatype Kind = Text | List

  /** One keyword argument of the record's constructor and the JSON key it reads. */
  datatype Field = Field(key: string, kind: Kind)

  datatype FieldValue = TextValue(text: string) | ListValue(items: seq<string>)

  /** The constructor arguments of `JDInfo` in the order Python evaluates them. */
  const JDSchema: seq<Field> := [
    Field("title", Text), Field("company", Text), Field("location", Text),
    Field("required_skills", List), Field("nice_to_have_skills", List),
    Field("responsibilities", List), Field("keywords", List)]

  /** The constructor arguments of `ResumeInfo` in the order Python evaluates them. */
  const ResumeSchema: seq<Field> := [
    Field("name", Text), Field("headline", Text), Field("skills", List), Field("tools", List)]

  // ---------- what the source promises of one field ----------

  /** Python gets through the field without raising. */
  predicate Accepts(data: JsonMap, f: Field) {
    f.key !in data ||
    match f.kind
    case Text => data[f.key].JString?
    case List =>
      match data[f.key]
      case JArray(items) => forall i :: 0 <= i < |items| ==> items[i].JString?
      case JString(_) => true
      case JObject(_) => true
      case _ => false
  }

  /** `v` is what the field becomes: the default when the key is missing,
      the stripped string, or the list with each item stripped, at its position
      (iterating a string yields its characters, iterating a dict its
      distinct keys in first-occurrence order). */
  predicate Holds(data: JsonMap, f: Field, v: FieldValue) {
    match f.kind
    case Text =>
      v.TextValue? &&
      (f.key !in data ==> v.text == "") &&
      (f.key in data ==> data[f.key].JString? && v.text == Strip(data[f.key].s))
    case List =>
      v.ListValue? &&
      (f.key !in data ==> v.items == []) &&
      (f.key in data ==>
        match data[f.key]
        case JArray(items) =>
          |v.items| == |items| &&
          forall i :: 0 <= i < |items| ==> items[i].JString? && v.items[i] == Strip(items[i].s)
        case JString(s) =>
          |v.items| == |s| && forall i :: 0 <= i < |s| ==> v.items[i] == Strip([s[i]])
        case JObject(members) =>
          |v.items| == |DictKeys(members)| &&
          forall i :: 0 <= i < |DictKeys(members)| ==> v.items[i] == Strip(DictKeys(members)[i])
        case _ => false)
  }

  /** `e` is the exception Python raises on the field. */
  predicate Explains(data: JsonMap, f: Field, e: FieldError) {
    f.key in data &&
    match f.kind
    case Text => !data[f.key].JString? && e == StripOnNonString(f.key)
    case List =>
      match data[f.key]
      case JArray(items) =>
        e.ElementNotString? && e.key == f.key && e.index < |items| && !items[e.index].JString? &&
        forall i :: 0 <= i < e.index ==> items[i].JString?
      case JString(_) => false
      case JObject(_) => false
      case _ => e == NotIterable(f.key)
  }

  // ---------- the builders ----------

  /** The position of the first item that is not a string. */
  function FirstNonString(items: seq<JsonValue>): (k: nat)
    requires exists i :: 0 <= i < |items| && !items[i].JString?
    ensures k < |items| && !items[k].JString?
    ensures forall i :: 0 <= i < k ==> items[i].JString?
  {
    if !items[0].JString? then 0
    else
      assert exists i :: 0 <= i < |items[1..]| && !items[1..][i].JString? by {
        var i :| 0 <= i < |items| && !items[i].JString?;
        assert items[1..][i - 1] == items[i];
      }
      var k := FirstNonString(items[1..]);
      assert forall i :: 1 <= i <= k ==> items[i] == items[1..][i - 1];
      k + 1
  }

  /** `[s.strip() for s in items]` for a JSON array; the first item that is
      not a string raises. */
  function StripItems(items: seq<JsonValue>, key: string): (r: Result<seq<string>, FieldError>)
    ensures r.Success? <==> forall i :: 0 <= i < |items| ==> items[i].JString?
    ensures r.Success? ==>
      |r.value| == |items| && forall i :: 0 <= i < |items| ==> r.value[i] == Strip(items[i].s)
    ensures r.Failure? ==>
      r.error.ElementNotString? && r.error.key == key && r.error.index < |items| &&
      !items[r.error.index].JString? && forall i :: 0 <= i < r.error.index ==> items[i].JString?
  {
    if forall i :: 0 <= i < |items| ==> items[i].JString? then
      Success(seq(|items|, i requires 0 <= i < |items| => Strip(items[i].s)))
    else
      Failure(ElementNotString(key, FirstNonString(items)))
  }

  /** `data.get(key, "").strip()` or `[s.strip() for s in data.get(key, [])]`. */
  function ReadField(data: JsonMap, f: Field): (r: Result<FieldValue, FieldError>)
    ensures r.Success? <==> Accepts(data, f)
    ensures r.Success? ==> Holds(data, f, r.value)
    ensures r.Failure? ==> Explains(data, f, r.error)
  {
    if f.key !in data then
      Success(if f.kind == Text then TextValue("") else ListValue([]))
    else
      match f.kind
      case Text =>
        if data[f.key].JString? then Success(TextValue(Strip(data[f.key].s)))
        else Failure(StripOnNonString(f.key))
      case List =>
        match data[f.key]
        case JArray(items) =>
          var xs :- StripItems(items, f.key);
          Success(ListValue(xs))
        case JString(s) =>
          Success(ListValue(seq(|s|, i requires 0 <= i < |s| => Strip([s[i]]))))
        case JObject(members) =>
          var keys := DictKeys(members);
          Success(ListValue(seq(|keys|, i requires 0 <= i < |keys| => Strip(keys[i]))))
        case _ => Failure(NotIterable(f.key))
  }

  /** The fields one after the other, as Python evaluates the keyword
      arguments: the first field that raises ends the construction. */
  function ReadFields(data: JsonMap, schema: seq<Field>): (r: Result<seq<FieldValue>, FieldError>)
    ensures r.Success? <==> forall i :: 0 <= i < |schema| ==> Accepts(data, schema[i])
    ensures r.Success? ==>
      |r.value| == |schema| && forall i :: 0 <= i < |schema| ==> Holds(data, schema[i], r.value[i])
    ensures r.Failure? ==>
      exists k :: 0 <= k < |schema| && Explains(data, schema[k], r.error) &&
        forall i :: 0 <= i < k ==> Accepts(data, schema[i])
  {
    if schema == [] then Success([])
    else
      match ReadField(data, schema[0])
      case Failure(e) => Failure(e)
      case Success(v) =>
        match ReadFields(data, schema[1..])
        case Failure(e) =>
          ghost var k :| 0 <= k < |schema[1..]| && Explains(data, schema[1..][k], e) &&
            forall i :: 0 <= i < k ==> Accepts(data, schema[1..][i]);
          assert Explains(data, schema[k + 1], e);
          Failure(e)
        case Success(vs) => Success([v] + vs)
  }

  /** Every string of the record, and every item of every list, is stripped. */
  predicate AllStripped(xs: seq<string>) {
    forall i :: 0 <= i < |xs| ==> IsStripped(xs[i])
  }

  predicate JDStripped(jd: JDInfo) {
    IsStripped(jd.title) && IsStripped(jd.company) && IsStripped(jd.location) &&
    AllStripped(jd.requiredSkills) && AllStripped(jd.niceToHaveSkills) &&
    AllStripped(jd.responsibilities) && AllStripped(jd.keywords)
  }

  predicate ResumeStripped(resume: ResumeInfo) {
    IsStripped(resume.name) && IsStripped(resume.headline) &&
    AllStripped(resume.skills) && AllStripped(resume.tools)
  }

  lemma HoldsStripped(data: JsonMap, f: Field, v: FieldValue)
    requires Holds(data, f, v)
    ensures v.TextValue? ==> IsStripped(v.text)
    ensures v.ListValue? ==> AllStripped(v.items)
  {
  }

  /** The `JDInfo(...)` construction at the end of `_extract_jd_info`. */
  function BuildJDInfo(data: JsonMap): (r: Result<JDInfo, FieldError>)
    ensures r.Success? <==> forall i :: 0 <= i < |JDSchema| ==> Accepts(data, JDSchema[i])
    ensures r.Success? ==> JDStripped(r.value)
    ensures r.Success? ==>
      var jd := r.value;
      Holds(data, JDSchema[0], TextValue(jd.title)) &&
      Holds(data, JDSchema[1], TextValue(jd.company)) &&
      Holds(data, JDSchema[2], TextValue(jd.location)) &&
      Holds(data, JDSchema[3], ListValue(jd.requiredSkills)) &&
      Holds(data, JDSchema[4], ListValue(jd.niceToHaveSkills)) &&
      Holds(data, JDSchema[5], ListValue(jd.responsibilities)) &&
      Holds(data, JDSchema[6], ListValue(jd.keywords))
    ensures r.Failure? ==>
      exists k :: 0 <= k < |JDSchema| && Explains(data, JDSchema[k], r.error) &&
        forall i :: 0 <= i < k ==> Accepts(data, JDSchema[i])
  {
    var vs :- ReadFields(data, JDSchema);
    assert forall i :: 0 <= i < |JDSchema| ==> Holds(data, JDSchema[i], vs[i]);
    forall i | 0 <= i < |JDSchema| { HoldsStripped(data, JDSchema[i], vs[i]); }
    Success(JDInfo(vs[0].text, vs[1].text, vs[2].text,
                   vs[3].items, vs[4].items, vs[5].items, vs[6].items))
  }

  /** The `ResumeInfo(...)` construction at the end of `_extract_resume_info`. */
  function BuildResumeInfo(data: JsonMap): (r: Result<ResumeInfo, FieldError>)
    ensures r.Success? <==> forall i :: 0 <= i < |ResumeSchema| ==> Accepts(data, ResumeSchema[i])
    ensures r.Success? ==> ResumeStripped(r.value)
    ensures r.Success? ==>
      var resume := r.value;
      Holds(data, ResumeSchema[0], TextValue(resume.name)) &&
      Holds(data, ResumeSchema[1], TextValue(resume.headline)) &&
      Holds(data, ResumeSchema[2], ListValue(resume.skills)) &&
      Holds(data, ResumeSchema[3], ListValue(resume.tools))
    ensures r.Failure? ==>
      exists k :: 0 <= k < |ResumeSchema| && Explains(data, ResumeSchema[k], r.error) &&
        forall i :: 0 <= i < k ==> Accepts(data, ResumeSchema[i])
  {
    var vs :- ReadFields(data, ResumeSchema);
    assert forall i :: 0 <= i < |ResumeSchema| ==> Holds(data, ResumeSchema[i], vs[i]);
    forall i | 0 <= i < |ResumeSchema| { HoldsStripped(data, ResumeSchema[i], vs[i]); }
    Success(ResumeInfo(vs[0].text, vs[1].text, vs[2].items, vs[3].items))
  }
}
