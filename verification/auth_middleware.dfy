/** Bearer-token authentication and the seller guard
    (src/middleware/auth.middleware.ts). Verifying a token's signature and
    expiry with the secret is the parameter `verify`, which yields the
    token's payload or nothing when `jwt.verify` would throw. */
module AuthMiddleware {
  import opened Common
  import opened Text
  import opened Accounts

  const BearerPrefix: string := "Bearer "

  const UnauthorizedText: string := "Unauthorized"
  const InvalidTokenText: string := "Invalid token"
  const SellerOnlyText: string := "Forbidden: Only seller, admin or superadmin can perform this action"

  /** `req.user`: the id and role copied from the verified payload. The role
      is `None` when the payload carries none (JavaScript `undefined`). */
  datatype ReqUser = ReqUser(id: int, role: Option<string>)

  /** What the authentication middleware does with a request: pass it on
      with the user it attached, or answer it. */
  datatype Gate = Next(user: ReqUser) | Deny(status: nat, message: string)

  /** What a guard does with a request: let it through or answer it. */
  datatype Verdict = Pass | Refuse(status: nat, message: string)

  /** A header that starts with the prefix splits into "Bearer" followed by
      the pieces of what comes after the prefix. */
  lemma SplitBearer(h: string)
    requires StartsWith(h, BearerPrefix)
    ensures Split(h, ' ') == ["Bearer"] + Split(h[|BearerPrefix|..], ' ')
  {
    assert h[..7] == BearerPrefix;
    assert forall i :: 0 <= i < 6 ==> h[i] == BearerPrefix[i] && h[i] != ' ';
    assert h[6] == ' ';
    var k := IndexOf(h, ' ').value;
    assert h[..k] == "Bearer";
  }

  /** `authHeader.split(" ")[1]` for a header that passed the prefix test:
      the text after "Bearer " up to the next space, or to the end. */
  function BearerToken(header: Option<string>): (r: Option<string>)
    ensures r.Some? <==> header.Some? && StartsWith(header.value, BearerPrefix)
    ensures r.Some? ==> r.value == TakeUntil(header.value[|BearerPrefix|..], ' ')
  {
    if header.None? || !StartsWith(header.value, BearerPrefix) then None
    else
      SplitBearer(header.value);
      SplitHead(header.value[|BearerPrefix|..], ' ');
      Some(Split(header.value, ' ')[1])
  }

  /** A token without spaces comes back out of the header it was put in,
      whatever follows it after a space. */
  lemma BearerRoundTrip(token: string, rest: string)
    requires ' ' !in token
    ensures BearerToken(Some(BearerPrefix + token)) == Some(token)
    ensures BearerToken(Some(BearerPrefix + token + " " + rest)) == Some(token)
  {
    var h1 := BearerPrefix + token;
    assert h1[..|BearerPrefix|] == BearerPrefix;
    assert h1[|BearerPrefix|..] == token + [];
    TakeUntilPrefix(token, [], ' ');
    var h2 := BearerPrefix + token + " " + rest;
    assert h2[..|BearerPrefix|] == BearerPrefix;
    assert h2[|BearerPrefix|..] == token + (" " + rest);
    TakeUntilPrefix(token, " " + rest, ' ');
  }

  /** Two spaces after "Bearer" leave an empty token, which the middleware
      hands to `jwt.verify` unchanged; whether it is refused is up to the
      verifier, a parameter here. */
  lemma DoubleSpaceGivesEmptyToken(rest: string)
    ensures BearerToken(Some("Bearer  " + rest)) == Some("")
  {
    var h := "Bearer  " + rest;
    assert h[..|BearerPrefix|] == BearerPrefix;
    assert h[|BearerPrefix|..] == [] + (" " + rest);
    TakeUntilPrefix([], " " + rest, ' ');
  }

  /** `authMiddleware`. */
  function Authenticate(header: Option<string>, verify: string -> Option<Claims>): (r: Gate)
    ensures BearerToken(header).None? ==> r == Deny(401, UnauthorizedText)
    ensures r.Deny? ==> r.status == 401
    ensures r.Next? <==> BearerToken(header).Some? && verify(BearerToken(header).value).Some?
    ensures r.Next? ==> var c := verify(BearerToken(header).value).value;
      r.user == ReqUser(c.id, c.role)
  {
    match BearerToken(header)
    case None => Deny(401, UnauthorizedText)
    case Some(token) =>
      match verify(token)
      case None => Deny(401, InvalidTokenText)
      case Some(payload) => Next(ReqUser(payload.id, payload.role))
  }

  /** Round trip through signing: a request carrying `Bearer <token>` for a
      token the verifier accepts as issued gets exactly the signed claims
      as its user. */
  lemma SignedTokenAuthenticates(c: Claims, sign: Claims -> string, verify: string -> Option<Claims>)
    requires ' ' !in sign(c) && verify(sign(c)) == Some(c)
    ensures Authenticate(Some(BearerPrefix + sign(c)), verify) == Next(ReqUser(c.id, c.role))
  {
    BearerRoundTrip(sign(c), "");
  }

  /** Any request without the prefix is answered 401 before verification. */
  lemma MissingPrefixUnauthorized(header: Option<string>, verify: string -> Option<Claims>)
    requires header.None? || !StartsWith(header.value, BearerPrefix)
    ensures Authenticate(header, verify) == Deny(401, UnauthorizedText)
  {
  }

  /** `isSellerOrAdmin`. */
  function IsSellerOrAdmin(user: Option<ReqUser>): (r: Verdict)
    ensures user.None? ==> r == Refuse(401, UnauthorizedText)
    ensures user.Some? && r.Refuse? ==> r == Refuse(403, SellerOnlyText)
  {
    if user.None? then Refuse(401, UnauthorizedText)
    else if user.value.role in [Some("seller"), Some("admin"), Some("superadmin")] then Pass
    else Refuse(403, SellerOnlyText)
  }
}
