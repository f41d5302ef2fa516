/** The pure decisions of the registry server: the liveness status of a
    node row, the HTTP status and body of each error, the admin gate of the
    HTTP Basic authentication scheme (RFC 7617, section 2) and the shape of
    freshly minted node tokens. */
module Server {
  import opened Common
  import opened Text

  // ---------------------------------------------------------------- status

  datatype Status = Pending | Online | Offline {
    function Name(): string {
      match this
      case Pending => "pending"
      case Online => "online"
      case Offline => "offline"
    }
  }

  /** Liveness of a row, from its `last_seen` and the reader's clock `now`:
      pending until the first report, online while the report is at most
      `offlineTimeout` seconds old, offline afterwards. */
  function DeriveStatus(lastSeen: Option<real>, now: real, offlineTimeout: nat): (s: Status)
    ensures s == Pending <==> lastSeen.None?
    ensures s == Online <==> lastSeen.Some? && now - lastSeen.value <= offlineTimeout as real
    ensures s == Offline <==> lastSeen.Some? && now - lastSeen.value > offlineTimeout as real
  {
    match lastSeen
    case Some(ts) => if now - ts <= offlineTimeout as real then Online else Offline
    case None => Pending
  }

  /** Staleness is lazy but one-way: a row that reads as offline keeps
      reading as offline at every later instant until it reports again. */
  lemma OfflineIsPermanentWithoutReports(lastSeen: Option<real>, now: real, later: real, offlineTimeout: nat)
    requires now <= later
    requires DeriveStatus(lastSeen, now, offlineTimeout) == Offline
    ensures DeriveStatus(lastSeen, later, offlineTimeout) == Offline
  {
  }

  // ---------------------------------------------------------------- errors

  /** The registry's error kinds; the detail of a foreign failure is its text. */
  datatype AppError =
    | NotFound
    | Database(detail: string)
    | Io(detail: string)
    | Unauthorized
    | Serde(detail: string)
    | BadRequest(detail: string)

  /** The `Display` text of each error, as the `#[error]` attributes give it. */
  function Message(e: AppError): (m: string)
    ensures m != ""
    ensures (e.Database? || e.Io? || e.Serde? || e.BadRequest?) ==>
      |e.detail| < |m| && m[|m| - |e.detail|..] == e.detail
  {
    match e
    case NotFound => "not found"
    case Database(d) => "database error: " + d
    case Io(d) => "io error: " + d
    case Unauthorized => "unauthorized"
    case Serde(d) => "serialization error: " + d
    case BadRequest(d) => "bad request: " + d
  }

  /** An error response: its HTTP status code and the `detail` of its JSON body. */
  datatype ErrorResponse = ErrorResponse(code: nat, detail: string)

  /** `AppError::into_response`. */
  function Respond(e: AppError): (r: ErrorResponse)
    ensures r.detail == Message(e)
    ensures r.code in {400, 401, 404, 500}
    ensures r.code == 404 <==> e.NotFound?
    ensures r.code == 401 <==> e.Unauthorized?
    ensures r.code == 400 <==> e.BadRequest?
    ensures r.code == 500 <==> (e.Database? || e.Io? || e.Serde?)
  {
    var code := match e
      case NotFound => 404
      case Unauthorized => 401
      case BadRequest(_) => 400
      case _ => 500;
    ErrorResponse(code, Message(e))
  }

  /** No information is lost on the way out: the response determines the error. */
  lemma {:induction false} RespondIsInjective(e1: AppError, e2: AppError)
    requires Respond(e1) == Respond(e2)
    ensures e1 == e2
  {
    var m1, m2 := Message(e1), Message(e2);
    assert m1 == m2;
    // the first letter of every message tells the kinds apart
    assert m1[0] == m2[0];
    match e1
    case Database(d) =>
      var p := "database error: ";
      assert m1[..|p|] == p && m2[..|p|] == p;
      assert d == m1[|p|..] == m2[|p|..] == e2.detail;
    case Io(d) =>
      var p := "io error: ";
      assert m1[..|p|] == p && m2[..|p|] == p;
      assert d == m1[|p|..] == m2[|p|..] == e2.detail;
    case Serde(d) =>
      var p := "serialization error: ";
      assert m1[..|p|] == p && m2[..|p|] == p;
      assert d == m1[|p|..] == m2[|p|..] == e2.detail;
    case BadRequest(d) =>
      var p := "bad request: ";
      assert m1[..|p|] == p && m2[..|p|] == p;
      assert d == m1[|p|..] == m2[|p|..] == e2.detail;
    case _ =>
  }

  // ---------------------------------------------------------------- admin gate

  /** The server's settings, as read from its environment at start-up. */
  datatype Settings = Settings(
    publicUrl: string,
    offlineTimeout: nat,
    bindAddr: string,
    adminUser: Option<string>,
    adminPass: Option<string>)

  /** Admin checks are on only when both the user and the password are configured. */
  predicate AuthEnabled(settings: Settings) {
    settings.adminUser.Some? && settings.adminPass.Some?
  }

  /** `HeaderValue::to_str` succeeds only on visible ASCII and tab. */
  predicate IsHeaderText(s: string) {
    forall i :: 0 <= i < |s| ==> (' ' <= s[i] <= '~') || s[i] == '\t'
  }

  /** The text handed to the base64 decoder: the header after every leading
      "Basic ", trimmed. */
  function BasicPayload(header: string): string {
    Trim(TrimStartMatches(header, "Basic "))
  }

  /** `require_auth`. `authorization` is the Authorization header, if sent;
      `decode` stands for base64 decoding followed by UTF-8 validation, and
      yields `None` when either fails. */
  function RequireAuth(settings: Settings, authorization: Option<string>,
                       decode: string -> Option<string>): (r: Result<(), AppError>)
    ensures r.Err? ==> r.error == Unauthorized
  {
    if !AuthEnabled(settings) then Ok(())
    else if authorization.None? || !IsHeaderText(authorization.value) then Err(Unauthorized)
    else if !StartsWith(authorization.value, "Basic ") then Err(Unauthorized)
    else
      match decode(BasicPayload(authorization.value))
      case None => Err(Unauthorized)
      case Some(credentials) =>
        match SplitOnce(credentials, ':')
        case None => Err(Unauthorized)
        case Some((user, pass)) =>
          if Some(user) == settings.adminUser && Some(pass) == settings.adminPass then Ok(())
          else Err(Unauthorized)
  }

  /** The gate admits a request exactly when admin checks are off, or the
      header is a "Basic " header whose decoded credentials are the configured
      user, a colon and the configured password, where the user has no colon
      (the credentials are split at their first colon). */
  lemma RequireAuthAdmitsExactlyTheConfiguredPair(settings: Settings, authorization: Option<string>,
                                                  decode: string -> Option<string>)
    ensures RequireAuth(settings, authorization, decode).Ok? <==>
      (!AuthEnabled(settings) ||
       (authorization.Some? && IsHeaderText(authorization.value) &&
        StartsWith(authorization.value, "Basic ") &&
        ':' !in settings.adminUser.value &&
        decode(BasicPayload(authorization.value)) ==
          Some(settings.adminUser.value + ":" + settings.adminPass.value)))
  {
    if AuthEnabled(settings) && authorization.Some? && IsHeaderText(authorization.value)
       && StartsWith(authorization.value, "Basic ") {
      var user, pass := settings.adminUser.value, settings.adminPass.value;
      var decoded := decode(BasicPayload(authorization.value));
      if ':' !in user && decoded == Some(user + ":" + pass) {
        SplitOnceJoin(user, pass, ':');
      }
    }
  }

  /** With a configured user name containing a colon, no request is ever admitted. */
  lemma ColonInUserLocksEveryoneOut(settings: Settings, authorization: Option<string>,
                                    decode: string -> Option<string>)
    requires AuthEnabled(settings) && ':' in settings.adminUser.value
    ensures RequireAuth(settings, authorization, decode) == Err(Unauthorized)
  {
    RequireAuthAdmitsExactlyTheConfiguredPair(settings, authorization, decode);
  }

  // ---------------------------------------------------------------- tokens

  predicate IsLowerHexDigit(c: char) {
    ('0' <= c <= '9') || ('a' <= c <= 'f')
  }

  /** A node token: 40 lowercase hexadecimal digits. */
  predicate IsNodeToken(t: string) {
    |t| == 40 && forall i :: 0 <= i < |t| ==> IsLowerHexDigit(t[i])
  }

  /** Lower-case hex formatting of a value below 16. */
  function HexDigit(d: nat): (c: char)
    requires d < 16
    ensures IsLowerHexDigit(c)
    ensures HexDigitValue(c) == d
  {
    if d < 10 then ('0' as int + d) as char else ('a' as int + d - 10) as char
  }

  function HexDigitValue(c: char): (d: nat)
    requires IsLowerHexDigit(c)
    ensures d < 16
  {
    if c <= '9' then c as int - '0' as int else c as int - 'a' as int + 10
  }

  /** The random draws of `generate_token`: forty values in `0..16`. */
  predicate IsTokenDraws(draws: seq<nat>) {
    |draws| == 40 && forall i :: 0 <= i < |draws| ==> draws[i] < 16
  }

  /** `generate_token`, given the forty values the random generator drew. */
  function GenerateToken(draws: seq<nat>): (t: string)
    requires IsTokenDraws(draws)
    ensures IsNodeToken(t)
    ensures forall i :: 0 <= i < 40 ==> HexDigitValue(t[i]) == draws[i]
  {
    seq(40, i requires 0 <= i < 40 => HexDigit(draws[i]))
  }

  /** Different draws give different tokens: every digit encodes one draw. */
  lemma GenerateTokenIsInjective(a: seq<nat>, b: seq<nat>)
    requires IsTokenDraws(a) && IsTokenDraws(b)
    requires GenerateToken(a) == GenerateToken(b)
    ensures a == b
  {
    forall i | 0 <= i < 40 ensures a[i] == b[i] {
      assert GenerateToken(a)[i] == GenerateToken(b)[i];
    }
  }
}
