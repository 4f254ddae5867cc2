/** verifyFirebaseToken: the other token gate, which checks less than
    authenticateFirebaseUser. */
module VerifyFirebaseToken {
  import opened Common
  import opened Firebase

  /** No header or no "Bearer " prefix answers 403; otherwise the token, even
      "", goes to the verifier, whose exception also answers 403; a decoded
      token is attached as it is, with or without a uid. */
  function VerifyToken(header: Option<string>, verify: string -> Verification): (g: Gate<DecodedToken>)
    ensures BearerToken(header).None? ==> g == Deny(StatusForbidden)
    ensures g.Deny? ==> g.status == StatusForbidden
    ensures g.Next? <==> BearerToken(header).Some? && verify(BearerToken(header).value).Verified?
    ensures g.Next? ==> g.user == verify(BearerToken(header).value).token
  {
    var token := BearerToken(header);
    if token.None? then Deny(StatusForbidden)
    else
      match verify(token.value)
      case Failed => Deny(StatusForbidden)
      case Verified(decoded) => Next(decoded)
  }

  /** A header with two spaces after the scheme, such as "Bearer  x", sends
      the empty token to the verifier (the second field of the split is ""),
      and a decoded token without a uid is let through. */
  lemma EmptyTokenReachesVerifier(verify: string -> Verification)
    ensures VerifyToken(Some("Bearer  x"), verify) ==
      if verify("").Verified? then Next(verify("").token) else Deny(StatusForbidden)
  {
    assert "Bearer  x" == BearerPrefix + "" + " x";
    BearerTokenOf("", " x");
  }
}
