/** Start-up configuration (`app/mod.rs`): the stored settings, the environment
    overrides merged over them, and the credential validators that decide whether the
    chat screen or the configuration screen opens. */
module Apps {
  import opened Wrappers
  import opened Text

  /** `Loaded`: the settings the application starts from. */
  datatype Loaded = Loaded(
    active: nat,
    userName: string,
    oauthToken: string,
    clientId: string,
    clientSecret: string,
    channels: seq<string>)

  const DefaultLoaded := Loaded(0, "", "", "", "", [])

  datatype ValidationError = TokenPrefix | EmptyInput | InvalidLength(have: nat, require: nat)

  /** `Result<(), ValidationError>`. */
  datatype Outcome = Pass | Fail(error: ValidationError)

  /** The required length of an OAuth token, "oauth:" included. */
  const TokenLength: nat := 36
  /** The required length of a client id and of a client secret. */
  const ClientLength: nat := 30

  /** `validate_length`: passes exactly at the required length, else reports both. */
  function ValidateLength(input: string, max: nat): (r: Outcome)
    ensures r.Pass? <==> |input| == max
    ensures r.Fail? ==> r.error == InvalidLength(|input|, max)
  {
    if |input| == max then Pass else Fail(InvalidLength(|input|, max))
  }

  /** `user_name`: anything but blank is accepted. */
  function UserName(input: string): (r: Outcome)
    ensures r.Fail? <==> Trim(input) == []
    ensures r.Fail? ==> r.error == EmptyInput
  {
    if Trim(input) == [] then Fail(EmptyInput) else Pass
  }

  /** `oauth_token`: blank, then a missing "oauth:" prefix, then a wrong length, are
      reported in that order. */
  function OauthToken(input: string): (r: Outcome)
    ensures var t := Trim(input);
      && (t == [] ==> r == Fail(EmptyInput))
      && (t != [] && !StartsWith(t, "oauth:") ==> r == Fail(TokenPrefix))
      && (StartsWith(t, "oauth:") && |t| != TokenLength ==> r == Fail(InvalidLength(|t|, TokenLength)))
      && (r.Pass? <==> StartsWith(t, "oauth:") && |t| == TokenLength)
  {
    var t := Trim(input);
    if t == [] then Fail(EmptyInput)
    else if !StartsWith(t, "oauth:") then Fail(TokenPrefix)
    else ValidateLength(t, TokenLength)
  }

  /** `client_id` and `client_secret`: a blank value, else a trimmed length other than 30,
      is reported. */
  function ClientCredential(input: string): (r: Outcome)
    ensures var t := Trim(input);
      && (t == [] ==> r == Fail(EmptyInput))
      && (t != [] && |t| != ClientLength ==> r == Fail(InvalidLength(|t|, ClientLength)))
      && (r.Pass? <==> |t| == ClientLength)
  {
    var t := Trim(input);
    if t == [] then Fail(EmptyInput) else ValidateLength(t, ClientLength)
  }

  /** Every credential is well formed. */
  predicate WellFormed(l: Loaded) {
    && Trim(l.userName) != []
    && StartsWith(Trim(l.oauthToken), "oauth:") && |Trim(l.oauthToken)| == TokenLength
    && |Trim(l.clientId)| == ClientLength
    && |Trim(l.clientSecret)| == ClientLength
  }

  /** `validate`: the user name, token, client id and secret are checked in that order, and
      the first failure is the answer. */
  function Validate(l: Loaded): (r: Outcome)
    ensures r.Pass? <==> WellFormed(l)
    ensures UserName(l.userName).Fail? ==> r == UserName(l.userName)
    ensures UserName(l.userName).Pass? && OauthToken(l.oauthToken).Fail? ==> r == OauthToken(l.oauthToken)
    ensures UserName(l.userName).Pass? && OauthToken(l.oauthToken).Pass? && ClientCredential(l.clientId).Fail?
      ==> r == ClientCredential(l.clientId)
    ensures UserName(l.userName).Pass? && OauthToken(l.oauthToken).Pass? && ClientCredential(l.clientId).Pass?
      ==> r == ClientCredential(l.clientSecret)
  {
    var user := UserName(l.userName);
    if user.Fail? then user
    else
      var token := OauthToken(l.oauthToken);
      if token.Fail? then token
      else
        var id := ClientCredential(l.clientId);
        if id.Fail? then id
        else ClientCredential(l.clientSecret)
  }

  /** A user name fails exactly when it is all white space. */
  lemma UserNameBlank(input: string)
    ensures UserName(input).Fail? <==> forall i :: 0 <= i < |input| ==> IsWhitespace(input[i])
  {
    TrimEmptyIff(input);
  }

  /** A token of "oauth:" and 30 more characters, with no white space at its ends, passes. */
  lemma OauthTokenAccepts(rest: string)
    requires |rest| == TokenLength - 6
    requires !IsWhitespace(rest[|rest| - 1])
    ensures OauthToken("oauth:" + rest).Pass?
  {
    var t := "oauth:" + rest;
    assert !IsWhitespace(t[0]) && t[|t| - 1] == rest[|rest| - 1];
    TrimIdentity(t);
    assert t[..6] == "oauth:";
  }

  /** The credentials read from the environment; each is absent when its variable is unset. */
  datatype Overrides = Overrides(
    clientId: Option<string>,
    clientSecret: Option<string>,
    userName: Option<string>,
    oauthToken: Option<string>)

  predicate AnySet(env: Overrides) {
    env.clientId.Some? || env.clientSecret.Some? || env.userName.Some? || env.oauthToken.Some?
  }

  /** The override in `App::create`: once any variable is set, all four credentials come
      from the environment (unset ones empty) and the stored channels and active index stay;
      with none set, the stored settings are used as they are. */
  function Merge(stored: Option<Loaded>, env: Overrides): (r: Option<Loaded>)
    ensures !AnySet(env) ==> r == stored
    ensures AnySet(env) ==>
      && r.Some?
      && r.value.userName == env.userName.UnwrapOr("")
      && r.value.oauthToken == env.oauthToken.UnwrapOr("")
      && r.value.clientId == env.clientId.UnwrapOr("")
      && r.value.clientSecret == env.clientSecret.UnwrapOr("")
      && r.value.channels == stored.UnwrapOr(DefaultLoaded).channels
      && r.value.active == stored.UnwrapOr(DefaultLoaded).active
  {
    if AnySet(env) then
      var that := stored.UnwrapOr(DefaultLoaded);
      Some(that.(
        userName := env.userName.UnwrapOr(""),
        oauthToken := env.oauthToken.UnwrapOr(""),
        clientId := env.clientId.UnwrapOr(""),
        clientSecret := env.clientSecret.UnwrapOr("")))
    else stored
  }

  /** Which screen the application opens on, with the settings it is given. */
  datatype Start = Ready(loaded: Loaded) | NotReady(loaded: Loaded)

  /** `App::create`: the merged settings open the chat screen when they validate; otherwise,
      or when there are none, the configuration screen opens with what there is. */
  function Create(stored: Option<Loaded>, env: Overrides): (r: Start)
    ensures r.Ready? <==> Merge(stored, env).Some? && WellFormed(Merge(stored, env).value)
    ensures r.Ready? ==> r.loaded == Merge(stored, env).value
    ensures r.NotReady? ==> r.loaded == Merge(stored, env).UnwrapOr(DefaultLoaded)
  {
    match Merge(stored, env)
    case Some(l) => if Validate(l).Fail? then NotReady(l) else Ready(l)
    case None => NotReady(DefaultLoaded)
  }
}
