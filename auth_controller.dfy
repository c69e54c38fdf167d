/**
  The authentication controller (server/src/v1/Auth/Controller/auth.controller.ts):
  the per-route rate-limit quotas, the sign-in handler that moves the refresh
  token out of the response body into a cookie, the cookie domain taken from
  `APP_DOMAIN`, the missing-cookie guard of the refresh route and the
  token-check route.

  The controller calls service methods of another revision than the service
  modelled in `Auth` (`signIn(user, dto)`, `generateRecoveryKey`,
  `recoverAccount`, `refreshToken`); what they answer is a parameter here.
  The HTTP response object is a class that records the cookies set on it and
  the bodies sent.
*/
module AuthRoutes {
  import opened Common
  import opened Js
  import opened Http

  /** The routes of the controller. */
  datatype Route =
    | SignIn | SignUp | SignOut | GenerateRecoveryKey | RecoverAccount
    | AccountVerification | CheckToken | RefreshToken

  /** An `@RateLimit` decoration: `points` requests per `duration` seconds. */
  datatype RateLimit = RateLimit(points: nat, duration: nat, errorMessage: string)

  const TooManySignIns := "You have reached the limit of login requests. You have to wait 5 minutes before trying again."
  const TooManySignUps := "You can only create 1 account in 60 seconds"
  const TooManyRecoveryKeys := "You can only generate 1 key in 5 minutes"
  const WaitFiveMinutes := "You have reached the limit. You have to wait 5 minutes before trying again."

  /** The `@RateLimit` decoration of each route, `None` where there is none. */
  function Quota(route: Route): Option<RateLimit> {
    match route
    case SignIn => Some(RateLimit(5, 300, TooManySignIns))
    case SignUp => Some(RateLimit(1, 60, TooManySignUps))
    case GenerateRecoveryKey => Some(RateLimit(1, 300, TooManyRecoveryKeys))
    case RecoverAccount => Some(RateLimit(3, 300, WaitFiveMinutes))
    case AccountVerification => Some(RateLimit(3, 300, WaitFiveMinutes))
    case SignOut => None
    case CheckToken => None
    case RefreshToken => None
  }

  /** The routes behind `@UseGuards(AuthGuard('jwt'))`. */
  predicate JwtGuarded(route: Route) {
    route == SignOut || route == CheckToken
  }

  /**
    Every route is either rate limited or behind the JWT guard, never both,
    except the refresh route, which has neither.
  */
  lemma QuotaOrGuard(route: Route)
    ensures Quota(route).Some? <==> !JwtGuarded(route) && route != RefreshToken
  {
  }

  /** The path the refresh cookie is scoped to. */
  const RefreshCookiePath := "/api/v1/auth/refresh-token"

  const NoRefreshToken := "Server could not give access tokken without refresh token"

  /** A cookie as `res.setCookie(name, value, options)` sets it; `None` is `undefined`. */
  datatype Cookie = Cookie(name: string, value: Option<Value>, domain: string, path: string,
                           httpOnly: bool, secure: bool)

  /**
    `${APP_DOMAIN.split('//')[1]}`: the text between the first `//` and the
    next one (or the end); with no `//` the index is out of range and the
    template renders `undefined`.
  */
  function CookieDomain(appDomain: string): (domain: string)
    ensures !Contains(appDomain, "//") ==> domain == "undefined"
  {
    var parts := Split(appDomain, "//");
    if |parts| >= 2 then parts[1] else "undefined"
  }

  /**
    `domain` is what follows the `//` at `i`, the earliest one in `s`, up to
    the next `//` a scan from just after it finds, or up to the end when there
    is none.
  */
  predicate SegmentAfterFirst(s: string, i: int, domain: string) {
    && OccursAt(s, "//", i)
    && (forall j :: 0 <= j < i ==> !OccursAt(s, "//", j))
    && i + 2 + |domain| <= |s|
    && s[i + 2..i + 2 + |domain|] == domain
    && (forall j :: i + 2 <= j < i + 2 + |domain| ==> !OccursAt(s, "//", j))
    && (i + 2 + |domain| == |s| || OccursAt(s, "//", i + 2 + |domain|))
  }

  /**
    With a `//` in `APP_DOMAIN`, the cookie domain is the segment that follows
    its first occurrence, up to the next occurrence or the end.
  */
  lemma CookieDomainSegment(appDomain: string)
    requires Contains(appDomain, "//")
    ensures exists i | 0 <= i <= |appDomain| :: SegmentAfterFirst(appDomain, i, CookieDomain(appDomain))
  {
    var parts := Split(appDomain, "//");
    var i := |parts[0]|;
    var domain := CookieDomain(appDomain);
    assert OccursAt(appDomain, "//", i) && (forall j :: 0 <= j < i ==> !OccursAt(appDomain, "//", j))
           && domain == Split(appDomain[i + 2..], "//")[0] by {
      SplitHead(appDomain, "//");
    }
    var rest := appDomain[i + 2..];
    var pieces := Split(rest, "//");
    assert |domain| <= |rest| && rest[..|domain|] == domain
           && (forall j :: 0 <= j < |domain| ==> !OccursAt(rest, "//", j))
           && (|domain| == |rest| || OccursAt(rest, "//", |domain|)) by {
      JoinHead(pieces, "//");
    }
    SegmentFromSuffix(appDomain, i, rest, domain);
  }

  /** The conditions of `SegmentAfterFirst`, with the segment read off `rest`, the suffix after the `//`. */
  lemma SegmentFromSuffix(s: string, i: nat, rest: string, domain: string)
    requires OccursAt(s, "//", i) && (forall j :: 0 <= j < i ==> !OccursAt(s, "//", j)) && rest == s[i + 2..]
    requires |domain| <= |rest| && rest[..|domain|] == domain
    requires forall j :: 0 <= j < |domain| ==> !OccursAt(rest, "//", j)
    requires |domain| == |rest| || OccursAt(rest, "//", |domain|)
    ensures SegmentAfterFirst(s, i, domain)
  {
    var k := i + 2 + |domain|;
    assert rest[..|domain|] == s[i + 2..k];
    if k < |s| {
      assert rest[|domain|..|domain| + 2] == s[k..k + 2];
    }
    forall j | i + 2 <= j < k ensures OccursAt(s, "//", j) ==> OccursAt(rest, "//", j - i - 2) {
      if j + 2 <= |s| {
        assert s[j..j + 2] == rest[j - i - 2..j - i];
      }
    }
  }

  /** At most one position and one segment meet `SegmentAfterFirst`. */
  lemma SegmentAfterFirstUnique(s: string, i: int, domain: string, i': int, domain': string)
    requires SegmentAfterFirst(s, i, domain) && SegmentAfterFirst(s, i', domain')
    ensures i == i' && domain == domain'
  {
  }

  /** Every segment that meets `SegmentAfterFirst` is the cookie domain, so the domain is no other text. */
  lemma CookieDomainOfSegment(appDomain: string, i: int, domain: string)
    requires SegmentAfterFirst(appDomain, i, domain)
    ensures CookieDomain(appDomain) == domain
  {
    assert Contains(appDomain, "//") by { assert OccursAt(appDomain, "//", i); }
    CookieDomainSegment(appDomain);
    var i0 :| 0 <= i0 <= |appDomain| && SegmentAfterFirst(appDomain, i0, CookieDomain(appDomain));
    SegmentAfterFirstUnique(appDomain, i0, CookieDomain(appDomain), i, domain);
  }

  /**
    `authResponse.attributes.user.refresh_token` followed by `delete` on the
    same path: the body without the user's refresh token, and the token read
    (`None` for `undefined`). A missing or non-object `attributes`, or a
    missing or `null` user, is a `TypeError`; a user that is some other
    primitive reads `undefined` and is left as it is.
  */
  function TakeRefreshToken(body: Object): (r: Result<(Object, Option<Value>), HttpError>)
    ensures r.Err? <==> "attributes" !in body || !body["attributes"].Obj?
                        || "user" !in body["attributes"].fields || body["attributes"].fields["user"] == Null
    ensures r.Err? ==> r.error == InternalError
    ensures r.Ok? ==>
              var (stripped, token) := r.value;
              var user := body["attributes"].fields["user"];
              && stripped.Keys == body.Keys
              && (forall k :: k in body && k != "attributes" ==> stripped[k] == body[k])
              && stripped["attributes"].Obj?
              && stripped["attributes"].fields.Keys == body["attributes"].fields.Keys
              && (forall k :: k in body["attributes"].fields && k != "user" ==>
                    stripped["attributes"].fields[k] == body["attributes"].fields[k])
              && (user.Obj? ==>
                    && stripped["attributes"].fields["user"].Obj?
                    && "refresh_token" !in stripped["attributes"].fields["user"].fields
                    && stripped["attributes"].fields["user"].fields.Keys == user.fields.Keys - {"refresh_token"}
                    && (forall k :: k in stripped["attributes"].fields["user"].fields ==>
                          stripped["attributes"].fields["user"].fields[k] == user.fields[k])
                    && (token.Some? <==> "refresh_token" in user.fields)
                    && (token.Some? ==> token.value == user.fields["refresh_token"]))
              && (!user.Obj? ==> stripped == body && token.None?)
  {
    if "attributes" !in body || !body["attributes"].Obj? then Err(InternalError)
    else
      var attributes := body["attributes"].fields;
      if "user" !in attributes || attributes["user"] == Null then Err(InternalError)
      else
        var user := attributes["user"];
        if !user.Obj? then Ok((body, None))
        else
          var token := if "refresh_token" in user.fields then Some(user.fields["refresh_token"]) else None;
          var stripped := Obj(user.fields - {"refresh_token"});
          Ok((body["attributes" := Obj(attributes["user" := stripped])], token))
  }

  /** The inverse of `TakeRefreshToken`: the token written back into the user object, if there was one. */
  function PutRefreshToken(stripped: Object, token: Option<Value>): Object {
    if "attributes" in stripped && stripped["attributes"].Obj? && "user" in stripped["attributes"].fields
       && stripped["attributes"].fields["user"].Obj? && token.Some?
    then
      var attributes := stripped["attributes"].fields;
      stripped["attributes" := Obj(attributes["user" := Obj(attributes["user"].fields["refresh_token" := token.value])])]
    else stripped
  }

  /** Putting the taken token back where it was gives the service's body back. */
  lemma RestoreRefreshToken(body: Object)
    requires TakeRefreshToken(body).Ok?
    ensures PutRefreshToken(TakeRefreshToken(body).value.0, TakeRefreshToken(body).value.1) == body
  {
    var attributes := body["attributes"].fields;
    var user := attributes["user"];
    if user.Obj? && "refresh_token" in user.fields {
      var stripped := Obj(user.fields - {"refresh_token"});
      var token := user.fields["refresh_token"];
      assert (user.fields - {"refresh_token"})["refresh_token" := token] == user.fields;
      assert attributes["user" := stripped]["user" := user] == attributes;
      assert body["attributes" := Obj(attributes)] == body;
    } else if user.Obj? {
      assert user.fields - {"refresh_token"} == user.fields;
      assert attributes["user" := user] == attributes;
      assert body["attributes" := Obj(attributes)] == body;
    }
  }

  /**
    The rule of `refreshJwtToken`: a missing or empty `rt` cookie is a
    `BadRequest` before the service is called; otherwise the service gets the
    cookie's value.
  */
  function RefreshGuard(cookies: map<string, string>): (r: Result<string, HttpError>)
    ensures r.Err? <==> "rt" !in cookies || cookies["rt"] == ""
    ensures r.Err? ==> r.error == BadRequest(NoRefreshToken)
    ensures r.Ok? ==> r.value == cookies["rt"] && r.value != ""
  {
    if "rt" !in cookies || cookies["rt"] == "" then Err(BadRequest(NoRefreshToken))
    else Ok(cookies["rt"])
  }

  /** The `res` of the sign-in handler: cookies set on it and bodies sent. */
  class HttpResponse {
    var cookies: seq<Cookie>
    var sent: seq<Object>

    constructor ()
      ensures cookies == [] && sent == []
    {
      cookies := [];
      sent := [];
    }

    /** `res.setCookie(...)`. */
    method SetCookie(c: Cookie)
      modifies this`cookies
      ensures cookies == old(cookies) + [c]
    {
      cookies := cookies + [c];
    }

    /** `res.send(body)`. */
    method Send(body: Object)
      modifies this`sent
      ensures sent == old(sent) + [body]
    {
      sent := sent + [body];
    }
  }

  /** The controller, with the `APP_DOMAIN` setting it reads. */
  class AuthController {
    const appDomain: string

    constructor (appDomain: string)
      ensures this.appDomain == appDomain
    {
      this.appDomain := appDomain;
    }

    /** The `rt` cookie for a refresh token. */
    function RefreshCookie(token: Option<Value>): (c: Cookie)
      reads this
      ensures c.name == "rt" && c.value == token && c.path == RefreshCookiePath && c.httpOnly && c.secure
      ensures c.domain == CookieDomain(appDomain)
    {
      Cookie("rt", token, CookieDomain(appDomain), RefreshCookiePath, true, true)
    }

    /**
      `signIn`: the validation and the service's sign-in come first and their
      errors propagate; the refresh token is always removed from the body; the
      `rt` cookie is set only when `rememberMe` is truthy; the body is sent
      once either way.
    */
    method SignIn(rememberMe: Value, validated: Result<string, HttpError>,
                  signedIn: Result<Object, HttpError>, res: HttpResponse)
      returns (r: Result<(), HttpError>)
      modifies res
      ensures validated.Err? ==>
                r == Err(validated.error) && res.cookies == old(res.cookies) && res.sent == old(res.sent)
      ensures validated.Ok? && signedIn.Err? ==>
                r == Err(signedIn.error) && res.cookies == old(res.cookies) && res.sent == old(res.sent)
      ensures validated.Ok? && signedIn.Ok? && TakeRefreshToken(signedIn.value).Err? ==>
                r == Err(InternalError) && res.cookies == old(res.cookies) && res.sent == old(res.sent)
      ensures validated.Ok? && signedIn.Ok? && TakeRefreshToken(signedIn.value).Ok? ==>
                var (stripped, token) := TakeRefreshToken(signedIn.value).value;
                && r == Ok(())
                && res.sent == old(res.sent) + [stripped]
                && (Truthy(rememberMe) ==> res.cookies == old(res.cookies) + [RefreshCookie(token)])
                && (!Truthy(rememberMe) ==> res.cookies == old(res.cookies))
    {
      if validated.Err? {
        return Err(validated.error);
      }
      if signedIn.Err? {
        return Err(signedIn.error);
      }
      var taken := TakeRefreshToken(signedIn.value);
      if taken.Err? {
        return Err(taken.error);
      }
      var (authResponse, refreshToken) := taken.value;
      if Truthy(rememberMe) {
        res.SetCookie(RefreshCookie(refreshToken));
        res.Send(authResponse);
        return Ok(());
      }
      res.Send(authResponse);
      r := Ok(());
    }

    /**
      `refreshJwtToken`: the guard, then the service's answer for the cookie's
      token, given as `refresh`.
    */
    function RefreshJwtToken(cookies: map<string, string>, refresh: string -> Result<Reply, HttpError>)
      : (r: Result<Reply, HttpError>)
      ensures "rt" !in cookies || cookies["rt"] == "" ==> r == Err(BadRequest(NoRefreshToken))
      ensures "rt" in cookies && cookies["rt"] != "" ==> r == refresh(cookies["rt"])
    {
      match RefreshGuard(cookies)
      case Err(e) => Err(e)
      case Ok(rt) => refresh(rt)
    }

    /** `checkJwtToken`: once the JWT guard admits the request, the answer is always the same. */
    function CheckJwtToken(admitted: bool): (r: Result<Reply, HttpError>)
      ensures admitted <==> r.Ok?
      ensures r.Ok? ==> r.value.Status? && r.value.message == "Token is valid" && r.value.status == 200
    {
      if admitted then Ok(Status("Token is valid", 200)) else Err(CollaboratorError)
    }
  }
}
