/** What the record builders promise beyond their own contracts: defaults
    for an empty reply, keys outside the schema ignored, and a reply that
    already holds a trimmed record gives that record back. */
module RecordProperties {
  import opened Wrappers
  import opened PyStr
  import opened Json
  import opened Records

  /** A JSON array of strings. */
  function StringArray(xs: seq<string>): (v: JsonValue)
    ensures v.JArray? && |v.items| == |xs|
    ensures forall i :: 0 <= i < |xs| ==> v.items[i] == JString(xs[i])
  {
    JArray(seq(|xs|, i requires 0 <= i < |xs| => JString(xs[i])))
  }

  /** The reply the job-description prompt's schema asks for, holding `jd`. */
  function JDAsJson(jd: JDInfo): JsonMap {
    map["title" := JString(jd.title), "company" := JString(jd.company),
        "location" := JString(jd.location),
        "required_skills" := StringArray(jd.requiredSkills),
        "nice_to_have_skills" := StringArray(jd.niceToHaveSkills),
        "responsibilities" := StringArray(jd.responsibilities),
        "keywords" := StringArray(jd.keywords)]
  }

  /** The reply the resume prompt's schema asks for, holding `resume`. */
  function ResumeAsJson(resume: ResumeInfo): JsonMap {
    map["name" := JString(resume.name), "headline" := JString(resume.headline),
        "skills" := StringArray(resume.skills), "tools" := StringArray(resume.tools)]
  }

  /** The JSON a field value is written as: a string or an array of strings. */
  function FieldJson(v: FieldValue): JsonValue {
    match v
    case TextValue(t) => JString(t)
    case ListValue(xs) => StringArray(xs)
  }

  /** The value is trimmed and of the field's kind. */
  predicate FitsField(f: Field, v: FieldValue) {
    match v
    case TextValue(t) => f.kind == Text && IsStripped(t)
    case ListValue(xs) => f.kind == List && AllStripped(xs)
  }

  /** A field read from the JSON of a trimmed value of its kind is that value. */
  lemma ReadFieldOfTrimmed(data: JsonMap, f: Field, v: FieldValue)
    requires f.key in data && data[f.key] == FieldJson(v) && FitsField(f, v)
    ensures ReadField(data, f) == Success(v)
  {
    var r := ReadField(data, f).value;
    match v
    case TextValue(t) =>
      StripOfStripped(t);
    case ListValue(xs) =>
      forall i | 0 <= i < |xs| ensures r.items[i] == xs[i] {
        StripOfStripped(xs[i]);
      }
      assert r.items == xs;
  }

  /** Under each key of the schema, `data` holds the JSON of the matching
      trimmed value. */
  predicate HoldsTrimmed(data: JsonMap, schema: seq<Field>, vs: seq<FieldValue>) {
    |vs| == |schema| &&
    forall i :: 0 <= i < |schema| ==>
      schema[i].key in data && data[schema[i].key] == FieldJson(vs[i]) && FitsField(schema[i], vs[i])
  }

  lemma HoldsTrimmedTail(data: JsonMap, schema: seq<Field>, vs: seq<FieldValue>)
    requires schema != [] && HoldsTrimmed(data, schema, vs)
    ensures HoldsTrimmed(data, schema[1..], vs[1..])
  {
    forall i | 0 <= i < |schema| - 1
      ensures schema[1..][i].key in data && data[schema[1..][i].key] == FieldJson(vs[1..][i])
      ensures FitsField(schema[1..][i], vs[1..][i])
    {
      assert schema[1..][i] == schema[i + 1] && vs[1..][i] == vs[i + 1];
    }
  }

  /** `ReadFields` reads the first field and then the rest. */
  lemma ReadFieldsStep(data: JsonMap, schema: seq<Field>, v: FieldValue, rest: seq<FieldValue>)
    requires schema != []
    requires ReadField(data, schema[0]) == Success(v)
    requires ReadFields(data, schema[1..]) == Success(rest)
    ensures ReadFields(data, schema) == Success([v] + rest)
  {
  }

  /** Fields read from the JSON of trimmed values are those values. */
  lemma {:induction false} ReadFieldsOfTrimmed(data: JsonMap, schema: seq<Field>, vs: seq<FieldValue>)
    requires HoldsTrimmed(data, schema, vs)
    ensures ReadFields(data, schema) == Success(vs)
    decreases |schema|
  {
    if schema != [] {
      ReadFieldOfTrimmed(data, schema[0], vs[0]);
      HoldsTrimmedTail(data, schema, vs);
      ReadFieldsOfTrimmed(data, schema[1..], vs[1..]);
      ReadFieldsStep(data, schema, vs[0], vs[1..]);
      assert vs == [vs[0]] + vs[1..];
    }
  }

  /** The fields of a job record, in the order of `JDSchema`. */
  function JDFields(jd: JDInfo): seq<FieldValue> {
    [TextValue(jd.title), TextValue(jd.company), TextValue(jd.location),
     ListValue(jd.requiredSkills), ListValue(jd.niceToHaveSkills),
     ListValue(jd.responsibilities), ListValue(jd.keywords)]
  }

  /** The fields of a resume record, in the order of `ResumeSchema`. */
  function ResumeFields(resume: ResumeInfo): seq<FieldValue> {
    [TextValue(resume.name), TextValue(resume.headline),
     ListValue(resume.skills), ListValue(resume.tools)]
  }

  /** The reply written for a trimmed job record holds its fields. */
  lemma JDAsJsonHoldsTrimmed(jd: JDInfo)
    requires JDStripped(jd)
    ensures HoldsTrimmed(JDAsJson(jd), JDSchema, JDFields(jd))
  {
    var data, vs := JDAsJson(jd), JDFields(jd);
    assert forall i :: 0 <= i < |JDSchema| ==>
      JDSchema[i].key in data && data[JDSchema[i].key] == FieldJson(vs[i]) && FitsField(JDSchema[i], vs[i]);
  }

  /** A job record is built from the fields `ReadFields` returns. */
  lemma BuildJDFromFields(data: JsonMap, jd: JDInfo)
    requires ReadFields(data, JDSchema) == Success(JDFields(jd))
    ensures BuildJDInfo(data) == Success(jd)
  {
  }

  /** Building a job record from the reply that holds a trimmed record gives
      that record back. */
  lemma JDRoundTrip(jd: JDInfo)
    requires JDStripped(jd)
    ensures BuildJDInfo(JDAsJson(jd)) == Success(jd)
  {
    JDAsJsonHoldsTrimmed(jd);
    ReadFieldsOfTrimmed(JDAsJson(jd), JDSchema, JDFields(jd));
    BuildJDFromFields(JDAsJson(jd), jd);
  }

  /** The reply written for a trimmed resume record holds its fields. */
  lemma ResumeAsJsonHoldsTrimmed(resume: ResumeInfo)
    requires ResumeStripped(resume)
    ensures HoldsTrimmed(ResumeAsJson(resume), ResumeSchema, ResumeFields(resume))
  {
    var data, vs := ResumeAsJson(resume), ResumeFields(resume);
    assert forall i :: 0 <= i < |ResumeSchema| ==>
      ResumeSchema[i].key in data && data[ResumeSchema[i].key] == FieldJson(vs[i]) && FitsField(ResumeSchema[i], vs[i]);
  }

  /** A resume record is built from the fields `ReadFields` returns. */
  lemma BuildResumeFromFields(data: JsonMap, resume: ResumeInfo)
    requires ReadFields(data, ResumeSchema) == Success(ResumeFields(resume))
    ensures BuildResumeInfo(data) == Success(resume)
  {
  }

  /** Building a resume record from the reply that holds a trimmed record
      gives that record back. */
  lemma ResumeRoundTrip(resume: ResumeInfo)
    requires ResumeStripped(resume)
    ensures BuildResumeInfo(ResumeAsJson(resume)) == Success(resume)
  {
    ResumeAsJsonHoldsTrimmed(resume);
    ReadFieldsOfTrimmed(ResumeAsJson(resume), ResumeSchema, ResumeFields(resume));
    BuildResumeFromFields(ResumeAsJson(resume), resume);
  }

  /** A reply with none of the job keys gives empty strings and empty lists. */
  lemma EmptyReplyGivesJDDefaults(data: JsonMap)
    requires forall i :: 0 <= i < |JDSchema| ==> JDSchema[i].key !in data
    ensures BuildJDInfo(data) == Success(JDInfo("", "", "", [], [], [], []))
  {
    assert forall i :: 0 <= i < |JDSchema| ==> Accepts(data, JDSchema[i]);
  }

  /** A reply with none of the resume keys gives empty strings and empty lists. */
  lemma EmptyReplyGivesResumeDefaults(data: JsonMap)
    requires forall i :: 0 <= i < |ResumeSchema| ==> ResumeSchema[i].key !in data
    ensures BuildResumeInfo(data) == Success(ResumeInfo("", "", [], []))
  {
    assert forall i :: 0 <= i < |ResumeSchema| ==> Accepts(data, ResumeSchema[i]);
  }

  /** A reply with none of the keys gives empty strings and empty lists. */
  lemma EmptyReplyGivesDefaults(data: JsonMap)
    requires forall i :: 0 <= i < |JDSchema| ==> JDSchema[i].key !in data
    requires forall i :: 0 <= i < |ResumeSchema| ==> ResumeSchema[i].key !in data
    ensures BuildJDInfo(data) == Success(JDInfo("", "", "", [], [], [], []))
    ensures BuildResumeInfo(data) == Success(ResumeInfo("", "", [], []))
  {
    EmptyReplyGivesJDDefaults(data);
    EmptyReplyGivesResumeDefaults(data);
  }

  /** The keys a schema reads. */
  predicate InSchema(key: string, schema: seq<Field>) {
    exists i :: 0 <= i < |schema| && schema[i].key == key
  }

  /** Replies that agree on the keys a schema reads are read alike. */
  lemma {:induction false} ReadFieldsIgnoresOtherKeys(d1: JsonMap, d2: JsonMap, schema: seq<Field>)
    requires forall k :: InSchema(k, schema) ==> (k in d1 <==> k in d2)
    requires forall k :: InSchema(k, schema) && k in d1 ==> d1[k] == d2[k]
    ensures ReadFields(d1, schema) == ReadFields(d2, schema)
    decreases |schema|
  {
    if schema != [] {
      assert InSchema(schema[0].key, schema);
      assert ReadField(d1, schema[0]) == ReadField(d2, schema[0]);
      forall k | InSchema(k, schema[1..]) ensures InSchema(k, schema) {
        var i :| 0 <= i < |schema[1..]| && schema[1..][i].key == k;
        assert schema[i + 1].key == k;
      }
      ReadFieldsIgnoresOtherKeys(d1, d2, schema[1..]);
    }
  }

  /** Keys outside the schema, such as the `soft_traits` list the resume
      prompt mentions, do not change the records. */
  lemma BuildersIgnoreOtherKeys(data: JsonMap, key: string, v: JsonValue)
    ensures !InSchema(key, JDSchema) ==> BuildJDInfo(data[key := v]) == BuildJDInfo(data)
    ensures !InSchema(key, ResumeSchema) ==> BuildResumeInfo(data[key := v]) == BuildResumeInfo(data)
  {
    if !InSchema(key, JDSchema) {
      ReadFieldsIgnoresOtherKeys(data[key := v], data, JDSchema);
    }
    if !InSchema(key, ResumeSchema) {
      ReadFieldsIgnoresOtherKeys(data[key := v], data, ResumeSchema);
    }
  }

  /** The key list of `{"go": a, "go": b}` is `["go"]`. */
  lemma DictKeysOfRepeatedKey(a: JsonValue, b: JsonValue)
    ensures DictKeys([("go", a), ("go", b)]) == ["go"]
  {
    var members := [("go", a), ("go", b)];
    var first := [("go", a)];
    assert first[..0] == [] && DictKeys(first) == ["go"];
    assert members[..1] == first;
  }

  /** A built resume's skills, when the reply lists them as a dict: its
      distinct keys, stripped. */
  lemma DictSkills(data: JsonMap, members: seq<(string, JsonValue)>)
    requires "skills" in data && data["skills"] == JObject(members)
    requires BuildResumeInfo(data).Success?
    ensures BuildResumeInfo(data).value.skills ==
      seq(|DictKeys(members)|, i requires 0 <= i < |DictKeys(members)| => Strip(DictKeys(members)[i]))
  {
    assert ResumeSchema[2].key == "skills";
  }

  /** Every field of `ResumeInfo` accepts `{"skills": {"go": a, "go": b}}`. */
  lemma RepeatedKeyAccepted(data: JsonMap, a: JsonValue, b: JsonValue)
    requires data == map["skills" := JObject([("go", a), ("go", b)])]
    ensures forall i :: 0 <= i < |ResumeSchema| ==> Accepts(data, ResumeSchema[i])
  {
    assert ResumeSchema[2].key == "skills" && data["skills"].JObject?;
    assert forall i :: 0 <= i < |ResumeSchema| && i != 2 ==> ResumeSchema[i].key !in data;
  }

  /** A dict listed with a repeated key is iterated once per distinct key:
      `{"skills": {"go": 1, "go": 2}}` gives the skill list `["go"]`. */
  lemma RepeatedKeyIteratedOnce(data: JsonMap, a: JsonValue, b: JsonValue)
    requires data == map["skills" := JObject([("go", a), ("go", b)])]
    ensures BuildResumeInfo(data).Success?
    ensures BuildResumeInfo(data).value.skills == ["go"]
  {
    RepeatedKeyAccepted(data, a, b);
    DictKeysOfRepeatedKey(a, b);
    StripOfStripped("go");
    DictSkills(data, [("go", a), ("go", b)]);
  }
}
