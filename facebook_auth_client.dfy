/**
 * The Facebook plugin's own logic: the mapping of a Graph `/me` response to
 * an `OmhUserProfile`, the revoke request and the order of revoke and log-out,
 * the login intent, and the trivial initialisation. The Facebook SDK is
 * abstract: its process-wide session (current access token and profile) is a
 * `SdkSession` object, and executing a Graph request is a function parameter
 * from the request to the response the server gives.
 */
module FacebookAuth {
  import opened Wrappers
  import opened KotlinText

  // ---------------------------------------------------------------------
  // JSON as Android's org.json presents it
  // ---------------------------------------------------------------------

  /** A JSON value. Strings keep their contents; an object keeps its members
      and also the text org.json prints for it; every other value (number,
      boolean, null, array) is kept as that printed text. */
  datatype Json =
    | JString(s: string)
    | JLiteral(text: string)
    | JObject(fields: map<string, Json>, text: string)

  /** The `JSONException`s the mapping can raise. */
  datatype JsonError = NoValue(key: string) | NotAnObject(key: string)

  /** What org.json's string accessors give for a present value: a string's
      contents, anything else's printed text (`null` gives `"null"`). */
  function TextOf(v: Json): string
  {
    match v
    case JString(s) => s
    case JLiteral(t) => t
    case JObject(_, t) => t
  }

  /** `getString(key)`: fails only when the key is absent. */
  function GetString(obj: map<string, Json>, key: string): Result<string, JsonError>
  {
    if key in obj then Ok(TextOf(obj[key])) else Err(NoValue(key))
  }

  /** `optString(key, fallback)`: the fallback when the key is absent. */
  function OptString(obj: map<string, Json>, key: string, fallback: string): string
  {
    if key in obj then TextOf(obj[key]) else fallback
  }

  /** `getJSONObject(key)`: fails when the key is absent or not an object. */
  function GetJsonObject(obj: map<string, Json>, key: string): Result<map<string, Json>, JsonError>
  {
    if key !in obj then Err(NoValue(key))
    else if obj[key].JObject? then Ok(obj[key].fields)
    else Err(NotAnObject(key))
  }

  // ---------------------------------------------------------------------
  // The profile mapping
  // ---------------------------------------------------------------------

  /** The provider-independent profile, in constructor order. */
  datatype OmhUserProfile = OmhUserProfile(name: string, surname: string, email: string, profileImage: string)

  const FirstNameKey := "first_name"
  const LastNameKey := "last_name"
  const EmailKey := "email"
  const PictureKey := "picture"
  const DataKey := "data"
  const UrlKey := "url"

  /** The fields `/me` is asked for. */
  const MeFields := "first_name,last_name,email,picture"

  /** The `/me` object carries every member the mapping needs. */
  predicate HasRequiredFields(me: map<string, Json>)
  {
    FirstNameKey in me && LastNameKey in me
    && PictureKey in me && me[PictureKey].JObject?
    && DataKey in me[PictureKey].fields && me[PictureKey].fields[DataKey].JObject?
    && UrlKey in me[PictureKey].fields[DataKey].fields
  }

  /** The avatar URL member `picture.data.url`. */
  function PictureUrl(me: map<string, Json>): Json
    requires HasRequiredFields(me)
  {
    me[PictureKey].fields[DataKey].fields[UrlKey]
  }

  /** The first `JSONException` the accessors raise, in evaluation order. */
  function FirstMissing(me: map<string, Json>): JsonError
    requires !HasRequiredFields(me)
  {
    if FirstNameKey !in me then NoValue(FirstNameKey)
    else if LastNameKey !in me then NoValue(LastNameKey)
    else if PictureKey !in me then NoValue(PictureKey)
    else if !me[PictureKey].JObject? then NotAnObject(PictureKey)
    else if DataKey !in me[PictureKey].fields then NoValue(DataKey)
    else if !me[PictureKey].fields[DataKey].JObject? then NotAnObject(DataKey)
    else NoValue(UrlKey)
  }

  /** The `OmhUserProfile(...)` construction of `getUserRequest`: the
      arguments are read left to right and the first failing accessor throws. */
  function ProfileFromMe(me: map<string, Json>): (r: Result<OmhUserProfile, JsonError>)
    ensures r.Ok? <==> HasRequiredFields(me)
    ensures r.Ok? ==>
      r.value == OmhUserProfile(TextOf(me[FirstNameKey]), TextOf(me[LastNameKey]),
                                OptString(me, EmailKey, ""), TextOf(PictureUrl(me)))
    ensures r.Err? ==> r.error == FirstMissing(me)
  {
    var first :- GetString(me, FirstNameKey);
    var last :- GetString(me, LastNameKey);
    var email := OptString(me, EmailKey, "");
    var picture :- GetJsonObject(me, PictureKey);
    var data :- GetJsonObject(picture, DataKey);
    var url :- GetString(data, UrlKey);
    Ok(OmhUserProfile(first, last, email, url))
  }

  /** A `/me` object carrying exactly a profile's data. */
  function MeObjectOf(p: OmhUserProfile): map<string, Json>
  {
    var data := JObject(map[UrlKey := JString(p.profileImage)], "");
    map[FirstNameKey := JString(p.name), LastNameKey := JString(p.surname), EmailKey := JString(p.email),
        PictureKey := JObject(map[DataKey := data], "")]
  }

  /** The mapping reads back every profile from the object that carries it. */
  lemma {:induction false} ProfileFromMeObject(p: OmhUserProfile)
    ensures ProfileFromMe(MeObjectOf(p)) == Ok(p)
  {
  }

  /** A missing `email` is never a failure: the mapping ends exactly as it
      would with an empty `email`, and a built profile has `email == ""`. */
  lemma {:induction false} MissingEmailIsEmpty(me: map<string, Json>)
    requires EmailKey !in me
    ensures ProfileFromMe(me) == ProfileFromMe(me[EmailKey := JString("")])
    ensures ProfileFromMe(me).Ok? ==> ProfileFromMe(me).value.email == ""
  {
    var me' := me[EmailKey := JString("")];
    assert HasRequiredFields(me) <==> HasRequiredFields(me');
  }

  // ---------------------------------------------------------------------
  // Graph requests and their callbacks
  // ---------------------------------------------------------------------

  datatype HttpMethod = Get | Post | Delete

  datatype AccessToken = AccessToken(token: string)

  /** The SDK's current profile; its id is nullable. */
  datatype Profile = Profile(id: Option<string>)

  /** A Graph request: token, path, method and string parameters. */
  datatype GraphRequest = GraphRequest(accessToken: Option<AccessToken>, graphPath: string,
                                       httpMethod: HttpMethod, parameters: map<string, string>)

  /** The response's error; its exception is nullable. */
  datatype RequestError = RequestError(exception: Option<string>)

  /** A Graph response: the parsed object, if any, and the error, if any. */
  datatype GraphResponse = GraphResponse(jsonObject: Option<map<string, Json>>, error: Option<RequestError>)

  /** What an exception raised by a callback carries. */
  datatype Failure = ProviderFailure(exception: string) | JsonFailure(jsonError: JsonError) | NullPointer

  /** How a `suspendCoroutine` callback ends: it resumes the continuation
      with a value, resumes it with an exception, or throws before resuming
      anything (the continuation then never resumes). */
  datatype Resumption<T> = Resumed(value: T) | ResumedWithException(failure: Failure) | ThrewInCallback(failure: Failure)

  /** `response?.error?.exception`. */
  function ErrorException(response: GraphResponse): Option<string>
  {
    match response.error
    case None => None
    case Some(e) => e.exception
  }

  /** `GraphRequest.newMeRequest(token)` with `fields` set. */
  function MeRequest(token: Option<AccessToken>): GraphRequest
  {
    GraphRequest(token, "me", Get, map["fields" := MeFields])
  }

  /** The `/me` callback of `getUserRequest`. */
  function MeCallback(response: GraphResponse): (r: Resumption<OmhUserProfile>)
    ensures r.Resumed? <==> response.jsonObject.Some? && HasRequiredFields(response.jsonObject.value)
    ensures r.Resumed? ==> ProfileFromMe(response.jsonObject.value) == Ok(r.value)
    ensures r.ResumedWithException? <==> response.jsonObject.None? && ErrorException(response).Some?
    ensures r.ResumedWithException? ==> r.failure == ProviderFailure(ErrorException(response).value)
    ensures r.ThrewInCallback? && response.jsonObject.Some? ==>
      r.failure == JsonFailure(FirstMissing(response.jsonObject.value))
    ensures r.ThrewInCallback? && response.jsonObject.None? ==> r.failure == NullPointer
  {
    match response.jsonObject
    case None =>
      (match ErrorException(response)
       case Some(e) => ResumedWithException(ProviderFailure(e))
       case None => ThrewInCallback(NullPointer))
    case Some(me) =>
      (match ProfileFromMe(me)
       case Ok(p) => Resumed(p)
       case Err(e) => ThrewInCallback(JsonFailure(e)))
  }

  /** The fields asked of `/me` are exactly the top-level members the mapping
      reads, in the order it reads them. */
  lemma {:induction false} MeFieldsAreMappedMembers()
    ensures Split(MeRequest(None).parameters["fields"], ',') == [FirstNameKey, LastNameKey, EmailKey, PictureKey]
  {
    var keys := [FirstNameKey, LastNameKey, EmailKey, PictureKey];
    assert keys[1..] == [LastNameKey, EmailKey, PictureKey];
    assert keys[1..][1..] == [EmailKey, PictureKey];
    assert keys[1..][1..][1..] == [PictureKey];
    assert Join([PictureKey], [',']) == PictureKey;
    assert Join(keys[1..][1..], [',']) == EmailKey + [','] + PictureKey;
    assert Join(keys[1..], [',']) == LastNameKey + [','] + (EmailKey + [','] + PictureKey);
    assert Join(keys, [',']) == FirstNameKey + [','] + (LastNameKey + [','] + (EmailKey + [','] + PictureKey));
    assert FirstNameKey + [','] + (LastNameKey + [','] + (EmailKey + [','] + PictureKey)) == MeFields;
    assert forall i :: 0 <= i < |keys| ==> ',' !in keys[i];
    SplitJoin(keys, ',');
  }

  /** `"%s".format(id)` on a nullable id. */
  function FormatNullable(id: Option<string>): string
  {
    match id
    case Some(s) => s
    case None => "null"
  }

  /** `Profile.getCurrentProfile()?.id`. */
  function ProfileId(profile: Option<Profile>): Option<string>
  {
    match profile
    case None => None
    case Some(p) => p.id
  }

  /** The revoke request: DELETE on `/<current profile id>/permissions` with
      the current access token. */
  function RevokeRequest(token: Option<AccessToken>, profile: Option<Profile>): GraphRequest
  {
    GraphRequest(token, "/" + FormatNullable(ProfileId(profile)) + "/permissions", Delete, map[])
  }

  /** The revoke path names the profile id (`null` without one) as its only
      segment before `permissions`. */
  lemma {:induction false} RevokePathSegments(token: Option<AccessToken>, profile: Option<Profile>)
    requires '/' !in FormatNullable(ProfileId(profile))
    ensures var r := RevokeRequest(token, profile);
      r.httpMethod == Delete && r.accessToken == token
      && Split(r.graphPath, '/') == ["", FormatNullable(ProfileId(profile)), "permissions"]
  {
    var id := FormatNullable(ProfileId(profile));
    var pieces := ["", id, "permissions"];
    assert pieces[1..] == [id, "permissions"];
    assert pieces[1..][1..] == ["permissions"];
    assert Join(["permissions"], ['/']) == "permissions";
    assert Join(pieces[1..], ['/']) == id + ['/'] + "permissions";
    assert Join(pieces, ['/']) == "" + ['/'] + (id + ['/'] + "permissions");
    assert "" + ['/'] + (id + ['/'] + "permissions") == "/" + id + "/permissions";
    assert forall i :: 0 <= i < |"permissions"| ==> "permissions"[i] != '/';
    SplitJoin(pieces, '/');
  }

  /** With no current profile the path is `/null/permissions`. */
  lemma {:induction false} RevokeWithoutProfile(token: Option<AccessToken>)
    ensures RevokeRequest(token, None).graphPath == "/null/permissions"
  {
  }

  /** The revoke callback: resume normally without an error, resume with the
      error's exception otherwise, and throw when that exception is null. */
  function RevokeCallback(response: GraphResponse): (r: Resumption<()>)
    ensures r.Resumed? <==> response.error.None?
    ensures r.ResumedWithException? <==> ErrorException(response).Some?
    ensures r.ResumedWithException? ==> r.failure == ProviderFailure(ErrorException(response).value)
    ensures r.ThrewInCallback? <==> response.error.Some? && ErrorException(response).None?
    ensures r.ThrewInCallback? ==> r.failure == NullPointer
  {
    match response.error
    case None => Resumed(())
    case Some(e) =>
      (match e.exception
       case Some(x) => ResumedWithException(ProviderFailure(x))
       case None => ThrewInCallback(NullPointer))
  }

  // ---------------------------------------------------------------------
  // The SDK session and the client
  // ---------------------------------------------------------------------

  /** The Facebook SDK's process-wide session: `AccessToken.getCurrentAccessToken()`
      and `Profile.getCurrentProfile()`. */
  class SdkSession {
    var currentAccessToken: Option<AccessToken>
    var currentProfile: Option<Profile>

    constructor (token: Option<AccessToken>, profile: Option<Profile>)
      ensures currentAccessToken == token && currentProfile == profile
    {
      currentAccessToken := token;
      currentProfile := profile;
    }

    /** `LoginManager.getInstance().logOut()`: clears the current token and profile. */
    method LogOut()
      modifies this
      ensures currentAccessToken == None && currentProfile == None
    {
      currentAccessToken := None;
      currentProfile := None;
    }
  }

  /** The activity that runs the interactive login. */
  const LoginActivity := "FacebookLoginActivity"
  const ScopesExtraKey := "scopes"

  /** An explicit intent: the activity it starts and its string-list extras. */
  datatype Intent = Intent(component: string, stringArrayListExtras: map<string, seq<string>>)

  class FacebookAuthClient {
    const scopes: seq<string>

    constructor (scopes: seq<string>)
      ensures this.scopes == scopes
    {
      this.scopes := scopes;
    }

    /** `initialize()`: nothing to set up; the task completes at once. */
    method Initialize() returns (outcome: Resumption<()>)
      ensures outcome == Resumed(())
    {
      outcome := Resumed(());
    }

    /** `getLoginIntent()`: starts the login activity and carries the
        constructor's scopes, unchanged, as the only extra. */
    function GetLoginIntent(): (intent: Intent)
      ensures intent.component == LoginActivity
      ensures intent.stringArrayListExtras.Keys == {ScopesExtraKey}
      ensures intent.stringArrayListExtras[ScopesExtraKey] == scopes
    {
      Intent(LoginActivity, map[ScopesExtraKey := scopes])
    }

    /** `getUserRequest()`: sends `/me` with the current token and ends as
        its callback does. */
    method GetUserRequest(session: SdkSession, execute: GraphRequest -> GraphResponse)
      returns (request: GraphRequest, outcome: Resumption<OmhUserProfile>)
      ensures request == MeRequest(session.currentAccessToken)
      ensures outcome == MeCallback(execute(request))
    {
      request := MeRequest(session.currentAccessToken);
      var response := execute(request);
      outcome := MeCallback(response);
    }

    /** `signOut()`: logs out of the SDK session. */
    method SignOut(session: SdkSession)
      modifies session
      ensures session.currentAccessToken == None && session.currentProfile == None
    {
      session.LogOut();
    }

    /** `revokeTokenRequest()`: sends the revoke request and ends as its
        callback does. */
    method RevokeTokenRequest(session: SdkSession, execute: GraphRequest -> GraphResponse)
      returns (request: GraphRequest, outcome: Resumption<()>)
      ensures request == RevokeRequest(session.currentAccessToken, session.currentProfile)
      ensures outcome == RevokeCallback(execute(request))
    {
      request := RevokeRequest(session.currentAccessToken, session.currentProfile);
      var response := execute(request);
      outcome := RevokeCallback(response);
    }

    /** `revokeToken()`: revoke first; log out only once the revoke request
        has resumed normally. A failed revoke leaves the session as it was. */
    method RevokeToken(session: SdkSession, execute: GraphRequest -> GraphResponse)
      returns (request: GraphRequest, outcome: Resumption<()>)
      modifies session
      ensures request == RevokeRequest(old(session.currentAccessToken), old(session.currentProfile))
      ensures outcome == RevokeCallback(execute(request))
      ensures outcome.Resumed? ==> session.currentAccessToken == None && session.currentProfile == None
      ensures !outcome.Resumed? ==> unchanged(session)
    {
      request, outcome := RevokeTokenRequest(session, execute);
      if outcome.Resumed? {
        session.LogOut();
      }
    }
  }
}
