/**
 * The `__tcfapi` commands of amp-consent (IAB Transparency and Consent Framework v2, the
 * CMP API): the validation of a posted `__tcfapiCall` and the reply to `ping`. Posted
 * messages are JavaScript values; a reply is returned instead of being posted.
 */
module TcfApiCommands {
  import opened Wrappers
  import opened JsText

  /** A JavaScript value as a posted message carries it. */
  datatype JsValue =
    | Undefined
    | Null
    | Bool(b: bool)
    | Num(n: int)
    | Str(s: string)
    | Arr(items: seq<JsValue>)
    | Obj(fields: map<string, JsValue>)

  /** `value[key]`: a missing property, or any property of a non-object, reads as `undefined`. */
  function Field(value: JsValue, key: string): (r: JsValue)
    ensures !value.Obj? ==> r == Undefined
  {
    if value.Obj? && key in value.fields then value.fields[key] else Undefined
  }

  /** JavaScript truthiness. */
  predicate Truthy(value: JsValue) {
    match value
    case Undefined => false
    case Null => false
    case Bool(b) => b
    case Num(n) => n != 0
    case Str(s) => s != ""
    case Arr(_) => true
    case Obj(_) => true
  }

  /** `String(value)`, as a template literal writes it into a message. */
  function ToJsString(value: JsValue): string
    decreases value, 1
  {
    match value
    case Undefined => "undefined"
    case Null => "null"
    case Bool(b) => if b then "true" else "false"
    case Num(n) => IntToString(n)
    case Str(s) => s
    case Arr(items) => JoinValues(items)
    case Obj(_) => "[object Object]"
  }

  /** `items.join(',')`, where `null` and `undefined` elements become empty. */
  function JoinValues(items: seq<JsValue>): string
    decreases items, 0
  {
    if |items| == 0 then ""
    else
      var first := if items[0] == Undefined || items[0] == Null then "" else ToJsString(items[0]);
      if |items| == 1 then first else first + "," + JoinValues(items[1..])
  }

  /** The commands known to be accepted: only `ping` is documented as valid. */
  const SUPPORTED_COMMANDS: set<string> := {"ping"}

  const TCF_VERSION: int := 2

  /** The openings of the four error reports; each ends with the offending value. */
  const NOT_AN_OBJECT: string := "\"tcfapiCall\" is not an object: "
  const UNSUPPORTED_COMMAND: string := "Unsupported command found in \"tcfapiCall\": "
  const UNSUPPORTED_PARAMETER: string := "Unsupported parameter found in \"tcfapiCall\": "
  const INCORRECT_VERSION: string := "Found incorrect version in \"tcfapiCall\": "

  /** The verdict of `isValidTcfApiCall` and the one error it reports, if any. */
  datatype Validation = Validation(valid: bool, error: Option<string>)

  /**
   * `isValidTcfApiCall(call)`: the checks run in order (an object, a supported command, no
   * parameter, version 2) and the first that fails is reported.
   */
  function IsValidTcfApiCall(call: JsValue): (r: Validation)
    ensures r.valid <==> r.error.None?
  {
    if !call.Obj? then
      Validation(false, Some(NOT_AN_OBJECT + ToJsString(call)))
    else if !(Field(call, "command").Str? && Field(call, "command").s in SUPPORTED_COMMANDS) then
      Validation(false, Some(UNSUPPORTED_COMMAND + ToJsString(Field(call, "command"))))
    else if Truthy(Field(call, "parameter")) then
      Validation(false, Some(UNSUPPORTED_PARAMETER + ToJsString(Field(call, "parameter"))))
    else if Field(call, "version") != Num(TCF_VERSION) then
      Validation(false, Some(INCORRECT_VERSION + ToJsString(Field(call, "version"))))
    else
      Validation(true, None)
  }

  /** A well-formed call, stated on its own: an object naming a supported command, without a parameter, for version 2. */
  predicate WellFormed(call: JsValue)
    ensures WellFormed(call) ==> Field(call, "command") == Str("ping") && Field(call, "version") == Num(2)
  {
    match call
    case Obj(fields) =>
      ("command" in fields && fields["command"].Str? && fields["command"].s in SUPPORTED_COMMANDS) &&
      ("parameter" in fields ==> !Truthy(fields["parameter"])) &&
      ("version" in fields && fields["version"] == Num(TCF_VERSION))
    case _ => false
  }

  /** A call is accepted exactly when it is well formed, and then nothing is reported. */
  lemma ValidIffWellFormed(call: JsValue)
    ensures IsValidTcfApiCall(call).valid <==> WellFormed(call)
    ensures WellFormed(call) ==> IsValidTcfApiCall(call).error.None?
  {
  }

  /** Anything but an object is rejected first, whatever else it holds. */
  lemma NotAnObjectFirst(call: JsValue)
    requires !call.Obj?
    ensures IsValidTcfApiCall(call) == Validation(false, Some(NOT_AN_OBJECT + ToJsString(call)))
  {
  }

  /** An unsupported command is reported before the parameter and the version are looked at. */
  lemma CommandBeforeParameterAndVersion(call: JsValue, parameter: JsValue, version: JsValue)
    requires call.Obj? && !(Field(call, "command").Str? && Field(call, "command").s in SUPPORTED_COMMANDS)
    ensures IsValidTcfApiCall(Obj(call.fields["parameter" := parameter]["version" := version])).error ==
      Some(UNSUPPORTED_COMMAND + ToJsString(Field(call, "command")))
  {
    var c := Obj(call.fields["parameter" := parameter]["version" := version]);
    assert Field(c, "command") == Field(call, "command");
  }

  /** A parameter is reported before the version is looked at. */
  lemma ParameterBeforeVersion(call: JsValue, version: JsValue)
    requires call.Obj? && Field(call, "command").Str? && Field(call, "command").s in SUPPORTED_COMMANDS
    requires Truthy(Field(call, "parameter"))
    ensures IsValidTcfApiCall(Obj(call.fields["version" := version])).error ==
      Some(UNSUPPORTED_PARAMETER + ToJsString(Field(call, "parameter")))
  {
    var c := Obj(call.fields["version" := version]);
    assert Field(c, "command") == Field(call, "command");
    assert Field(c, "parameter") == Field(call, "parameter");
  }

  // ---------------------------------------------------------------------------------------
  // ping

  /**
   * The `__tcfapiReturn` message for a `ping` with caller id `callId`: the CMP is loaded,
   * `gdprApplies` comes from the consent metadata, and no `success` value is sent.
   */
  function PingReturn(metadata: JsValue, callId: JsValue): (reply: JsValue)
    ensures Field(Field(reply, "__tcfapiReturn"), "callId") == callId
    ensures Field(Field(Field(reply, "__tcfapiReturn"), "returnValue"), "cmpLoaded") == Bool(true)
    ensures Field(Field(Field(reply, "__tcfapiReturn"), "returnValue"), "gdprApplies") == Field(metadata, "gdprApplies")
    ensures Field(Field(reply, "__tcfapiReturn"), "success") == Undefined
    ensures reply.Obj? && reply.fields.Keys == {"__tcfapiReturn"}
    ensures Field(reply, "__tcfapiReturn").Obj? &&
      Field(reply, "__tcfapiReturn").fields.Keys == {"returnValue", "callId", "success"}
    ensures Field(Field(reply, "__tcfapiReturn"), "returnValue").Obj? &&
      Field(Field(reply, "__tcfapiReturn"), "returnValue").fields.Keys == {"cmpLoaded", "gdprApplies"}
  {
    Obj(map["__tcfapiReturn" := Obj(map[
      "returnValue" := Obj(map["cmpLoaded" := Bool(true), "gdprApplies" := Field(metadata, "gdprApplies")]),
      "callId" := callId,
      "success" := Undefined])])
  }

  /**
   * `handleTcfCommand(payload, ...)` once the consent metadata is known: a `ping` is answered
   * with its reply; the other commands are not part of this model and get no reply here.
   */
  function HandleTcfCommand(payload: JsValue, metadata: JsValue): (reply: Option<JsValue>)
    ensures reply.Some? <==> Field(payload, "command") == Str("ping")
    ensures reply.Some? ==> Field(Field(reply.value, "__tcfapiReturn"), "callId") == Field(payload, "callId")
  {
    if Field(payload, "command") == Str("ping") then Some(PingReturn(metadata, Field(payload, "callId")))
    else None
  }

  // ---------------------------------------------------------------------------------------
  // The documented examples

  lemma RejectsNonObject()
    ensures IsValidTcfApiCall(Str("bad")) == Validation(false, Some(NOT_AN_OBJECT + "bad"))
  {
  }

  lemma RejectsUnsupportedCommand()
    ensures IsValidTcfApiCall(Obj(map["command" := Str("bad")])) ==
      Validation(false, Some(UNSUPPORTED_COMMAND + "bad"))
  {
    assert Field(Obj(map["command" := Str("bad")]), "command") == Str("bad");
  }

  lemma ArrayText()
    ensures ToJsString(Arr([Num(1), Num(2), Num(3)])) == "1,2,3"
  {
    assert IntToString(1) == "1" && IntToString(2) == "2" && IntToString(3) == "3";
    assert JoinValues([Num(3)]) == "3";
    assert [Num(1), Num(2), Num(3)][1..] == [Num(2), Num(3)];
    assert [Num(2), Num(3)][1..] == [Num(3)];
  }

  function PingWithParameter(): JsValue {
    Obj(map["command" := Str("ping"), "parameter" := Arr([Num(1), Num(2), Num(3)])])
  }

  lemma RejectsParameter()
    ensures IsValidTcfApiCall(PingWithParameter()) ==
      Validation(false, Some(UNSUPPORTED_PARAMETER + "1,2,3"))
  {
    ArrayText();
    assert Field(PingWithParameter(), "command") == Str("ping");
    assert Field(PingWithParameter(), "parameter") == Arr([Num(1), Num(2), Num(3)]);
  }

  function PingVersion(version: int): JsValue {
    Obj(map["command" := Str("ping"), "parameter" := Undefined, "version" := Num(version)])
  }

  lemma RejectsVersionOne()
    ensures IsValidTcfApiCall(PingVersion(1)) ==
      Validation(false, Some(INCORRECT_VERSION + "1"))
  {
    assert Field(PingVersion(1), "command") == Str("ping");
    assert Field(PingVersion(1), "parameter") == Undefined;
    assert Field(PingVersion(1), "version") == Num(1);
  }

  lemma AcceptsPingVersionTwo()
    ensures IsValidTcfApiCall(PingVersion(2)) == Validation(true, None)
  {
    assert Field(PingVersion(2), "command") == Str("ping");
    assert Field(PingVersion(2), "parameter") == Undefined;
    assert Field(PingVersion(2), "version") == Num(2);
  }

  /** The minimal ping reply echoes the caller's id and the metadata's `gdprApplies`. */
  lemma PingReplyExample()
    ensures HandleTcfCommand(Obj(map["command" := Str("ping"), "callId" := Str("pingCallId")]),
                             Obj(map["gdprApplies" := Bool(true)])) ==
      Some(Obj(map["__tcfapiReturn" := Obj(map[
        "returnValue" := Obj(map["cmpLoaded" := Bool(true), "gdprApplies" := Bool(true)]),
        "callId" := Str("pingCallId"),
        "success" := Undefined])]))
  {
    var payload := Obj(map["command" := Str("ping"), "callId" := Str("pingCallId")]);
    assert Field(payload, "command") == Str("ping");
    assert Field(payload, "callId") == Str("pingCallId");
    assert Field(Obj(map["gdprApplies" := Bool(true)]), "gdprApplies") == Bool(true);
  }
}
