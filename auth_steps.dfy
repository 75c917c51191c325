/** The three authentication steps that change the Minecraft profile: creating it
    (MinecraftProfileCreateStep), uploading or clearing the skin (SetSkinStep) and
    choosing or clearing the active cape (SetCapeStep). Each builds one request and maps
    the reply to what it emits: a reply without a network error continues the flow, any
    other error is reported through apiError and ends the flow as succeeded. */
module AuthSteps {
  import opened Common
  import opened AuthTask
  import Skins

  /** QNetworkReply::NoError. */
  const NoError: int := 0

  datatype Verb = Post | Put | Delete

  /** The body of one part of a multipart/form-data request. */
  datatype PartBody = Bytes(data: seq<byte>) | Text(text: string)

  datatype FormPart = FormPart(contentType: Option<string>, disposition: string, body: PartBody)

  datatype Body = NoBody | Payload(text: string) | Multipart(parts: seq<FormPart>)

  /** The request a step hands to the network layer; absent headers are `None`. */
  datatype Request = Request(
    verb: Verb,
    url: string,
    authorization: string,
    contentType: Option<string>,
    accept: Option<string>,
    body: Body)

  /** What a step emits when its reply arrives, in order. */
  datatype StepSignal = ApiError(error: MojangError) | Finished(state: TaskState, reason: string)

  /** The authorization header for the account's Minecraft services token. */
  function Bearer(token: string): string {
    "Bearer " + token
  }

  /** Strips a known prefix and suffix, if both are there. */
  function Between(s: string, prefix: string, suffix: string): (r: Option<string>)
    ensures r.Some? ==> s == prefix + r.value + suffix
  {
    if |prefix| + |suffix| <= |s| && s[..|prefix|] == prefix && s[|s| - |suffix|..] == suffix then
      var inner := s[|prefix|..|s| - |suffix|];
      assert s == s[..|prefix|] + inner + s[|s| - |suffix|..];
      Some(inner)
    else None
  }

  lemma BetweenInverts(prefix: string, inner: string, suffix: string)
    ensures Between(prefix + inner + suffix, prefix, suffix) == Some(inner)
  {
    var s := prefix + inner + suffix;
    assert s[..|prefix|] == prefix;
    assert s[|s| - |suffix|..] == suffix;
    assert s[|prefix|..|s| - |suffix|] == inner;
  }

  /** The signals of a step whose request failed with a reply the step does not
      tolerate: the parsed error, then SUCCEEDED with an empty reason. */
  function ReportedFailure(networkError: int, data: string, body: ParsedBody): seq<StepSignal> {
    [ApiError(FromJson(data, body, networkError)), Finished(StateSucceeded, "")]
  }

  /** A step's emissions end with exactly one `finished`, and only `apiError` comes
      before it. */
  predicate OneFinish(signals: seq<StepSignal>) {
    |signals| > 0 && signals[|signals| - 1].Finished? &&
    forall i :: 0 <= i < |signals| - 1 ==> signals[i].ApiError?
  }

  /** The state a step finished with. */
  function FinalState(signals: seq<StepSignal>): TaskState
    requires OneFinish(signals)
  {
    signals[|signals| - 1].state
  }

  // ---------------------------------------------------------------------------------
  // MinecraftProfileCreateStep

  const CreateDescriptionPrefix: string := "Creating the Minecraft profile '"
  const CreateDescriptionSuffix: string := "'."

  /** describe: the requested name between quotes. */
  function CreateDescription(profileName: string): (d: string)
    ensures Between(d, CreateDescriptionPrefix, CreateDescriptionSuffix) == Some(profileName)
  {
    BetweenInverts(CreateDescriptionPrefix, profileName, CreateDescriptionSuffix);
    CreateDescriptionPrefix + profileName + CreateDescriptionSuffix
  }

  const ProfileNamePrefix: string := "{\"profileName\":\""
  const PayloadSuffix: string := "\"}"

  /** The JSON body naming the profile; the name is substituted as it is, unescaped. */
  function ProfileNamePayload(profileName: string): (p: string)
    ensures Between(p, ProfileNamePrefix, PayloadSuffix) == Some(profileName)
  {
    BetweenInverts(ProfileNamePrefix, profileName, PayloadSuffix);
    ProfileNamePrefix + profileName + PayloadSuffix
  }

  /** perform: a JSON POST to the profile endpoint under the account's token. */
  function CreateRequest(apiBase: string, token: string, profileName: string): (r: Request)
    ensures r.verb == Post && r.url == apiBase + "/minecraft/profile"
    ensures r.authorization == Bearer(token)
    ensures r.contentType == Some("application/json") && r.accept == Some("application/json")
    ensures r.body.Payload? && Between(r.body.text, ProfileNamePrefix, PayloadSuffix) == Some(profileName)
  {
    Request(Post, apiBase + "/minecraft/profile", Bearer(token), Some("application/json"),
      Some("application/json"), Payload(ProfileNamePayload(profileName)))
  }

  /** onRequestDone: success, or a name the account already registered, continues;
      anything else reports the error and ends the flow. */
  function CreateRequestDone(networkError: int, data: string, body: ParsedBody): (signals: seq<StepSignal>)
    ensures OneFinish(signals)
    ensures var tolerated := networkError == NoError ||
        FromJson(data, body, networkError).detailsStatus == Some("ALREADY_REGISTERED");
      (tolerated ==> signals == [Finished(StateWorking, "")]) &&
      (!tolerated ==> signals == ReportedFailure(networkError, data, body))
  {
    if networkError == NoError then [Finished(StateWorking, "")]
    else
      var parsed := FromJson(data, body, networkError);
      if parsed.detailsStatus == Some("ALREADY_REGISTERED") then [Finished(StateWorking, "")]
      else [ApiError(parsed), Finished(StateSucceeded, "")]
  }

  /** A profile that already exists counts as created: an error reply whose JSON details
      carry the status ALREADY_REGISTERED continues the flow without reporting. */
  lemma AlreadyRegisteredContinues(networkError: int, data: string, fields: map<string, JsonValue>, details: map<string, JsonValue>)
    requires "details" in fields && fields["details"] == JObject(details)
    requires "status" in details && details["status"] == JString("ALREADY_REGISTERED")
    ensures CreateRequestDone(networkError, data, ParsedDocument(JObject(fields))) == [Finished(StateWorking, "")]
  {
    assert FromJson(data, ParsedDocument(JObject(fields)), networkError).detailsStatus == Some("ALREADY_REGISTERED");
  }

  // ---------------------------------------------------------------------------------
  // SetSkinStep

  /** getVariant of the model's underlying value: Slim is "SLIM", and Classic as well as
      any value outside the enum is "CLASSIC". */
  function GetVariant(modelValue: int): (v: string)
    ensures v == "SLIM" <==> modelValue == Skins.ModelValue(Skins.Slim)
    ensures v != "SLIM" ==> v == "CLASSIC"
  {
    if modelValue == 1 then "SLIM" else "CLASSIC"
  }

  /** The model a variant text names. */
  function VariantModel(variant: string): Skins.Model {
    if variant == "SLIM" then Skins.Slim else Skins.Classic
  }

  lemma VariantNamesModel(m: Skins.Model)
    ensures VariantModel(GetVariant(Skins.ModelValue(m))) == m
  {
  }

  /** describe. */
  function SkinDescription(skinData: seq<byte>): (d: string)
    ensures d == "Clearing skin" <==> skinData == []
    ensures d != "Clearing skin" ==> d == "Uploading skin"
  {
    if skinData == [] then "Clearing skin" else "Uploading skin"
  }

  /** The file part of a skin upload. */
  function SkinFilePart(skinData: seq<byte>): FormPart {
    FormPart(Some("image/png"), "form-data; name=\"file\"; filename=\"skin.png\"", Bytes(skinData))
  }

  /** The variant part of a skin upload. */
  function VariantPart(model: Skins.Model): FormPart {
    FormPart(None, "form-data; name=\"variant\"", Text(GetVariant(Skins.ModelValue(model))))
  }

  /** perform: no data deletes the skin; otherwise a two-part form uploads the PNG and
      then names its variant. */
  function SkinRequest(apiBase: string, token: string, model: Skins.Model, skinData: seq<byte>): (r: Request)
    ensures r.url == apiBase + "/minecraft/profile/skins" && r.authorization == Bearer(token)
    ensures r.contentType.None? && r.accept.None?
    ensures r.verb == Delete <==> skinData == []
    ensures r.verb == Delete ==> r.body == NoBody
    ensures r.verb != Delete ==> r.verb == Post && r.body == Multipart([SkinFilePart(skinData), VariantPart(model)])
  {
    var url := apiBase + "/minecraft/profile/skins";
    if skinData == [] then Request(Delete, url, Bearer(token), None, None, NoBody)
    else Request(Post, url, Bearer(token), None, None, Multipart([SkinFilePart(skinData), VariantPart(model)]))
  }

  /** The upload names the model it was built for, and carries the skin bytes. */
  lemma SkinUploadRoundTrip(apiBase: string, token: string, model: Skins.Model, skinData: seq<byte>)
    requires skinData != []
    ensures var parts := SkinRequest(apiBase, token, model, skinData).body.parts;
      parts[0].body == Bytes(skinData) && VariantModel(parts[1].body.text) == model
  {
  }

  /** onRequestDone: success continues; any error is reported and ends the flow. */
  function SkinRequestDone(networkError: int, data: string, body: ParsedBody): (signals: seq<StepSignal>)
    ensures OneFinish(signals)
    ensures networkError == NoError ==> signals == [Finished(StateWorking, "")]
    ensures networkError != NoError ==> signals == ReportedFailure(networkError, data, body)
  {
    if networkError == NoError then [Finished(StateWorking, "")]
    else [ApiError(FromJson(data, body, networkError)), Finished(StateSucceeded, "")]
  }

  // ---------------------------------------------------------------------------------
  // SetCapeStep

  /** describe, which does not depend on the cape. */
  const CapeDescription: string := "Setting cape."

  const CapeIdPrefix: string := "{\"capeId\":\""

  /** The JSON body naming the cape, substituted unescaped. */
  function CapeIdPayload(capeId: string): (p: string)
    ensures Between(p, CapeIdPrefix, PayloadSuffix) == Some(capeId)
  {
    BetweenInverts(CapeIdPrefix, capeId, PayloadSuffix);
    CapeIdPrefix + capeId + PayloadSuffix
  }

  /** perform: an empty id deletes the active cape with no body; otherwise a JSON PUT
      names it. */
  function CapeRequest(apiBase: string, token: string, capeId: string): (r: Request)
    ensures r.url == apiBase + "/minecraft/profile/capes/active" && r.authorization == Bearer(token)
    ensures r.verb == Delete <==> capeId == ""
    ensures r.verb == Delete ==> r.body == NoBody && r.contentType.None? && r.accept.None?
    ensures r.verb != Delete ==>
      r.verb == Put && r.contentType == Some("application/json") && r.accept == Some("application/json") &&
      r.body.Payload? && Between(r.body.text, CapeIdPrefix, PayloadSuffix) == Some(capeId)
  {
    var url := apiBase + "/minecraft/profile/capes/active";
    if capeId == "" then Request(Delete, url, Bearer(token), None, None, NoBody)
    else Request(Put, url, Bearer(token), Some("application/json"), Some("application/json"), Payload(CapeIdPayload(capeId)))
  }

  /** onRequestDone: success continues; any error is reported and ends the flow. */
  function CapeRequestDone(networkError: int, data: string, body: ParsedBody): (signals: seq<StepSignal>)
    ensures OneFinish(signals)
    ensures networkError == NoError ==> signals == [Finished(StateWorking, "")]
    ensures networkError != NoError ==> signals == ReportedFailure(networkError, data, body)
  {
    if networkError == NoError then [Finished(StateWorking, "")]
    else [ApiError(FromJson(data, body, networkError)), Finished(StateSucceeded, "")]
  }

  // ---------------------------------------------------------------------------------
  // what the outcomes do to the account task

  /** A rejected request does not fail the account task: changeState on a step's final state
      either continues the flow (no error, or a tolerated one) or ends it as succeeded,
      and it ends it exactly when an apiError was emitted. */
  lemma StepOutcomeNeverFailsTask(signals: seq<StepSignal>, account: AccountState, error: string)
    requires signals == [Finished(StateWorking, "")] || exists e :: signals == [ApiError(e), Finished(StateSucceeded, "")]
    ensures OneFinish(signals)
    ensures var t := ChangeOutcome(FinalState(signals), "", account, error);
      (t.continues <==> |signals| == 1) &&
      (!t.continues ==> t.signal == Some(Succeeded) && t.accountState == Online && t.errorString == error)
  {
  }

  /** Every reply of the three steps is of that form. */
  lemma RepliesAreContinueOrReport(networkError: int, data: string, body: ParsedBody)
    ensures var c := CreateRequestDone(networkError, data, body);
      c == [Finished(StateWorking, "")] || exists e :: c == [ApiError(e), Finished(StateSucceeded, "")]
    ensures var s := SkinRequestDone(networkError, data, body);
      s == [Finished(StateWorking, "")] || exists e :: s == [ApiError(e), Finished(StateSucceeded, "")]
    ensures var k := CapeRequestDone(networkError, data, body);
      k == [Finished(StateWorking, "")] || exists e :: k == [ApiError(e), Finished(StateSucceeded, "")]
  {
    var e := FromJson(data, body, networkError);
    if networkError != NoError {
      assert SkinRequestDone(networkError, data, body) == [ApiError(e), Finished(StateSucceeded, "")];
      assert CapeRequestDone(networkError, data, body) == [ApiError(e), Finished(StateSucceeded, "")];
      if e.detailsStatus != Some("ALREADY_REGISTERED") {
        assert CreateRequestDone(networkError, data, body) == [ApiError(e), Finished(StateSucceeded, "")];
      }
    }
  }
}
