/**
  The build-stage marker of `src/serein/distribution/build.py`: what is written, what is read back.
 */
module StageStatus {
  import opened Text
  import opened Utf8
  import Json

  const PASS := "pass"
  const FAIL := "fail"
  const NOT_PERFORMED := "not_performed"

  predicate IsStage(s: string) {
    s == PASS || s == FAIL || s == NOT_PERFORMED
  }

  lemma StagesDiffer()
    ensures PASS != FAIL && PASS != NOT_PERFORMED && FAIL != NOT_PERFORMED
  {
    assert PASS[0] == 'p' && FAIL[0] == 'f' && NOT_PERFORMED[0] == 'n';
  }

  /** `BuildStageStatus`; the two failure fields hold whatever JSON value was loaded. */
  datatype Status = Status(production: string, transition: string, qa: string, failureStage: Json.Value,
    failureReason: Json.Value)
  {
    predicate Valid() {
      IsStage(production) && IsStage(transition) && IsStage(qa)
    }
  }

  const FRESH := Status(NOT_PERFORMED, NOT_PERFORMED, NOT_PERFORMED, Json.Null, Json.Null)

  function StatusJson(s: Status): Json.Value {
    Json.Obj(map[
      "production_build" := Json.Str(s.production),
      "qa_transition" := Json.Str(s.transition),
      "qa_build" := Json.Str(s.qa),
      "failure_stage" := s.failureStage,
      "failure_reason" := s.failureReason])
  }

  function TextOf(json: Json.Codec, s: Status): seq<Byte> {
    json.dumps(StatusJson(s))
  }

  /** A stage that is absent or has an unknown value was not performed. */
  function StageOf(data: Json.Value, name: string): (s: string)
    ensures IsStage(s)
  {
    if data.Get(name).Str? && IsStage(data.Get(name).s) then data.Get(name).s else NOT_PERFORMED
  }

  /** `load_build_stage_status`: nothing when it raises, which an absent file does not. */
  function LoadStatus(json: Json.Codec, file: Option<seq<Byte>>): (r: Option<Status>)
    ensures r.Some? ==> r.value.Valid()
    ensures file.None? ==> r == Some(FRESH)
  {
    match file
    case None => Some(FRESH)
    case Some(text) =>
      match json.loads(text)
      case None => None
      case Some(data) =>
        if !data.Obj? then None
        else Some(Status(StageOf(data, "production_build"), StageOf(data, "qa_transition"), StageOf(data, "qa_build"),
                         data.Get("failure_stage"), data.Get("failure_reason")))
  }

  lemma StatusFields(s: Status)
    ensures var data := StatusJson(s);
      && data.Get("production_build") == Json.Str(s.production) && data.Get("qa_transition") == Json.Str(s.transition)
      && data.Get("qa_build") == Json.Str(s.qa)
      && data.Get("failure_stage") == s.failureStage && data.Get("failure_reason") == s.failureReason
  {
  }

  /**
    A marker survives write and load unchanged exactly when its three stages have one of the three
    known values; any other value is read back as "not performed".
   */
  lemma MarkerRoundTrip(json: Json.Codec, s: Status)
    requires json.Faithful()
    ensures LoadStatus(json, Some(TextOf(json, s))) == Some(s) <==> s.Valid()
  {
    hide IsStage, StatusJson;
    StatusFields(s);
    assert json.loads(TextOf(json, s)) == Some(StatusJson(s));
  }
}
