/**
 * The Firebase bearer-token middleware: the header must match
 * `^Bearer (.+)$`; the captured token goes to the verifier, which is an
 * oracle here, and the request either proceeds with the decoded user or is
 * answered with a 401.
 */
module AuthMiddleware {
  import opened Wrappers

  /** The characters a regular-expression `.` does not match. */
  predicate IsLineTerminator(c: char)
  {
    c == '\n' || c == '\r' || c == '\U{2028}' || c == '\U{2029}'
  }

  /** Whether `(.+)$` matches the whole of `s`. */
  function DotPlusToEnd(s: string): (b: bool)
    ensures b <==> |s| > 0 && forall i :: 0 <= i < |s| ==> !IsLineTerminator(s[i])
  {
    if |s| == 0 then false
    else !IsLineTerminator(s[0]) && (|s| == 1 || DotPlusToEnd(s[1..]))
  }

  const Scheme: string := "Bearer "

  /** `authHeader.match(/^Bearer (.+)$/)`, giving the captured group. */
  function ParseBearer(header: string): Option<string>
  {
    if |header| >= |Scheme| && header[..|Scheme|] == Scheme && DotPlusToEnd(header[|Scheme|..]) then
      Some(header[|Scheme|..])
    else
      None
  }

  /** The header matches exactly when it is `Bearer ` followed by a
      non-empty token free of line terminators, and the captured token is
      all of what follows the prefix. */
  lemma {:induction false} ParseBearerIff(header: string, token: string)
    ensures ParseBearer(header) == Some(token) <==>
      && header == Scheme + token
      && |token| > 0
      && forall i :: 0 <= i < |token| ==> !IsLineTerminator(token[i])
  {
    if header == Scheme + token {
      assert header[..|Scheme|] == Scheme;
      assert header[|Scheme|..] == token;
    }
    if ParseBearer(header) == Some(token) {
      assert header == header[..|Scheme|] + header[|Scheme|..];
    }
  }

  /** Any header that does not start with the exact scheme is refused. */
  lemma {:induction false} SchemeRequired(header: string)
    requires !(|header| >= |Scheme| && header[..|Scheme|] == Scheme)
    ensures ParseBearer(header).None?
  {
  }

  /** The scheme is case-sensitive, needs a token after its single space,
      keeps further spaces as part of the token, and refuses a token with a
      line break in it. */
  lemma {:induction false} ParseBearerExamples()
    ensures ParseBearer("Bearer abc") == Some("abc")
    ensures ParseBearer("Bearer  abc") == Some(" abc")
    ensures ParseBearer("bearer abc").None?
    ensures ParseBearer("Bearer ").None?
    ensures ParseBearer("Bearer a\nb").None?
  {
    assert "Bearer abc" == Scheme + "abc";
    assert "Bearer  abc" == Scheme + " abc";
    ParseBearerIff("Bearer abc", "abc");
    ParseBearerIff("Bearer  abc", " abc");
    assert "Bearer a\nb"[|Scheme|..] == "a\nb" && "a\nb"[1] == '\n';
    assert "Bearer "[|Scheme|..] == "";
    assert "bearer abc"[..|Scheme|] != Scheme by {
      assert "bearer abc"[0] != Scheme[0];
    }
  }

  /** What `verifyIdToken` resolves to. */
  datatype DecodedToken = DecodedToken(uid: string)

  datatype Outcome =
    | Rejected(status: nat, error: string)
    | Proceed(user: DecodedToken)

  /** The decision `verifyFirebaseToken` makes; a missing header counts as
      the empty string, and `verify` is `admin.auth().verifyIdToken` with
      rejection as `Err`. */
  function Authenticate(header: Option<string>, verify: string -> Result<DecodedToken, string>): Outcome
  {
    var authHeader := if header.Some? then header.value else "";
    var parsed := ParseBearer(authHeader);
    if parsed.None? then
      Rejected(401, "Missing or invalid Authorization header")
    else
      match verify(parsed.value)
      case Ok(decoded) => Proceed(decoded)
      case Err(_) => Rejected(401, "Invalid auth token")
  }

  /** The request proceeds exactly when the header carries a token the
      verifier accepts, with the user the verifier returned; a bad header is
      refused whatever the verifier would say; a refused token gets the
      second message. */
  lemma {:induction false} AuthenticateOutcome(header: Option<string>, verify: string -> Result<DecodedToken, string>)
    ensures var authHeader := if header.Some? then header.value else "";
      var o := Authenticate(header, verify);
      && (o.Proceed? <==> ParseBearer(authHeader).Some? && verify(ParseBearer(authHeader).value).Ok?)
      && (o.Proceed? ==> o.user == verify(ParseBearer(authHeader).value).value)
      && (ParseBearer(authHeader).None? ==> o == Rejected(401, "Missing or invalid Authorization header"))
      && (ParseBearer(authHeader).Some? && verify(ParseBearer(authHeader).value).Err? ==>
            o == Rejected(401, "Invalid auth token"))
  {
  }

  /** A missing header is refused without consulting the verifier. */
  lemma {:induction false} MissingHeaderRejected(verify: string -> Result<DecodedToken, string>)
    ensures Authenticate(None, verify) == Rejected(401, "Missing or invalid Authorization header")
    ensures Authenticate(Some(""), verify) == Rejected(401, "Missing or invalid Authorization header")
  {
  }

  /** Only the verifier's answer on the captured token matters. */
  lemma {:induction false} VerifierSeesOnlyToken(header: string, token: string,
                              v1: string -> Result<DecodedToken, string>, v2: string -> Result<DecodedToken, string>)
    requires ParseBearer(header) == Some(token) && v1(token) == v2(token)
    ensures Authenticate(Some(header), v1) == Authenticate(Some(header), v2)
  {
  }

  lemma {:induction false} BadHeaderIgnoresVerifier(header: Option<string>,
                                 v1: string -> Result<DecodedToken, string>, v2: string -> Result<DecodedToken, string>)
    requires ParseBearer(if header.Some? then header.value else "").None?
    ensures Authenticate(header, v1) == Authenticate(header, v2)
    ensures Authenticate(header, v1).Rejected?
  {
  }

  /** The parts of the Express request the middleware reads and writes. */
  class Request {
    var authorization: Option<string>
    var firebaseUser: Option<DecodedToken>

    constructor(authorization: Option<string>)
      ensures this.authorization == authorization && firebaseUser == None
    {
      this.authorization := authorization;
      firebaseUser := None;
    }
  }

  /** The parts of the Express response the middleware writes. */
  class ServerResponse {
    var statusCode: nat
    var errorBody: Option<string>

    constructor()
      ensures statusCode == 200 && errorBody == None
    {
      statusCode := 200;
      errorBody := None;
    }

    /** `res.status(code).json({ error })`. */
    method SendError(code: nat, error: string)
      modifies this
      ensures statusCode == code && errorBody == Some(error)
    {
      statusCode := code;
      errorBody := Some(error);
    }
  }

  /** `verifyFirebaseToken(req, res, next)`; the result says whether `next`
      was called. On success only `req.firebaseUser` changes; on failure only
      the response changes. */
  method VerifyFirebaseToken(req: Request, res: ServerResponse, verify: string -> Result<DecodedToken, string>)
    returns (calledNext: bool)
    modifies req, res
    ensures var o := Authenticate(old(req.authorization), verify);
      && (calledNext <==> o.Proceed?)
      && req.authorization == old(req.authorization)
      && (o.Proceed? ==>
            req.firebaseUser == Some(o.user) && res.statusCode == old(res.statusCode) && res.errorBody == old(res.errorBody))
      && (o.Rejected? ==>
            req.firebaseUser == old(req.firebaseUser) && res.statusCode == o.status && res.errorBody == Some(o.error))
  {
    var authHeader := if req.authorization.Some? then req.authorization.value else "";
    var parsed := ParseBearer(authHeader);
    if parsed.None? {
      res.SendError(401, "Missing or invalid Authorization header");
      return false;
    }
    var idToken := parsed.value;
    var verified := verify(idToken);
    if verified.Ok? {
      req.firebaseUser := Some(verified.value);
      return true;
    } else {
      res.SendError(401, "Invalid auth token");
      return false;
    }
  }
}
