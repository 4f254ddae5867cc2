/** authenticateFirebaseUser: the gate in front of the profile, cart,
    wishlist, order and catalog-write routes. */
module AuthMiddleware {
  import opened Common
  import opened Firebase

  /** No usable Bearer token (no header, no "Bearer " prefix, or nothing before
      the next space) answers 403 without calling the verifier; a verifier
      exception or a token without a uid answers 401; otherwise `req.user` is
      the decoded token. */
  function Authenticate(header: Option<string>, verify: string -> Verification): (g: Gate<DecodedToken>)
    ensures BearerToken(header).None? || BearerToken(header) == Some("") ==> g == Deny(StatusForbidden)
    ensures g.Next? <==>
      && BearerToken(header).Some? && BearerToken(header).value != ""
      && verify(BearerToken(header).value).Verified?
      && verify(BearerToken(header).value).token.uid != ""
    ensures g.Next? ==> g.user == verify(BearerToken(header).value).token && g.user.uid != ""
    ensures g.Deny? ==> g.status == StatusForbidden || g.status == StatusUnauthorized
    ensures g == Deny(StatusUnauthorized) <==>
      && BearerToken(header).Some? && BearerToken(header).value != ""
      && (verify(BearerToken(header).value).Failed? || verify(BearerToken(header).value).token.uid == "")
  {
    var token := BearerToken(header);
    if token.None? || token.value == "" then Deny(StatusForbidden)
    else
      match verify(token.value)
      case Failed => Deny(StatusUnauthorized)
      case Verified(decoded) => if decoded.uid == "" then Deny(StatusUnauthorized) else Next(decoded)
  }

  /** A header of the prefix and a space-free token reaches the verifier with
      exactly that token. */
  lemma AuthenticateUsesToken(word: string, verify: string -> Verification)
    requires word != "" && ' ' !in word
    ensures Authenticate(Some(BearerPrefix + word), verify) ==
      match verify(word)
      case Failed => Deny(StatusUnauthorized)
      case Verified(d) => if d.uid == "" then Deny(StatusUnauthorized) else Next(d)
  {
    assert BearerPrefix + word == BearerPrefix + word + [];
    BearerTokenOf(word, []);
  }

  /** "Bearer " alone, a doubled space, and a lower-case scheme are all refused
      with 403 whatever the verifier would say, although section 2.1 of RFC 6750
      admits the last two. */
  lemma AuthenticateRefusesNonCanonical(token: string, verify: string -> Verification)
    requires B64Token(token)
    ensures Authenticate(Some("Bearer "), verify) == Deny(StatusForbidden)
    ensures Authenticate(Some("Bearer" + Spaces(2) + token), verify) == Deny(StatusForbidden)
    ensures Authenticate(Some("bearer" + Spaces(1) + token), verify) == Deny(StatusForbidden)
  {
    assert "Bearer " == BearerPrefix + "" + [];
    BearerTokenOf("", []);
    NonCanonicalCredentials(token);
  }
}
