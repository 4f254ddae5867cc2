/** isAdmin: the gate that lets only stored profiles with the "admin" role
    through, and attaches the stored profile. */
module AdminMiddleware {
  import opened Common
  import opened Strings
  import opened UserModel
  import opened Firebase

  /** `header?.replace("Bearer ", "")`: the header with the first occurrence of
      the prefix removed, wherever it stands; "" for a missing header. */
  function AdminToken(header: Option<string>): string
  {
    if header.None? then "" else ReplaceFirst(header.value, BearerPrefix, "")
  }

  /** An empty token answers 401; a verifier exception 500 (the catch block);
      a token without a uid 401; no stored profile for the uid, or one whose
      role is not admin, 403. Otherwise `req.user` is the stored profile. */
  function IsAdmin(header: Option<string>, verify: string -> Verification, users: map<string, UserRecord>): (g: Gate<UserRecord>)
    ensures header.None? ==> g == Deny(StatusUnauthorized)
    ensures g == Deny(StatusServerError) <==> AdminToken(header) != "" && verify(AdminToken(header)).Failed?
    ensures g.Next? <==>
      && AdminToken(header) != "" && verify(AdminToken(header)).Verified?
      && var uid := verify(AdminToken(header)).token.uid;
         uid != "" && uid in users && users[uid].role == Admin
    ensures g.Next? ==> g.user == users[verify(AdminToken(header)).token.uid] && g.user.role == Admin
    ensures g.Deny? ==> g.status in {StatusUnauthorized, StatusForbidden, StatusServerError}
    ensures AdminToken(header) == "" ==> g == Deny(StatusUnauthorized)
    ensures AdminToken(header) != "" && verify(AdminToken(header)).Verified? && verify(AdminToken(header)).token.uid == "" ==>
      g == Deny(StatusUnauthorized)
    ensures AdminToken(header) != "" && verify(AdminToken(header)).Verified? ==>
      var uid := verify(AdminToken(header)).token.uid;
      uid != "" && (uid !in users || users[uid].role != Admin) ==> g == Deny(StatusForbidden)
  {
    var token := AdminToken(header);
    if token == "" then Deny(StatusUnauthorized)
    else
      match verify(token)
      case Failed => Deny(StatusServerError)
      case Verified(decoded) =>
        if decoded.uid == "" then Deny(StatusUnauthorized)
        else if decoded.uid !in users || users[decoded.uid].role != Admin then Deny(StatusForbidden)
        else Next(users[decoded.uid])
  }

  /** The token is whatever is left once the first "Bearer " is cut out: a
      header that starts with it gives the rest, and a header without it is
      passed on whole, so the prefix is never required. */
  lemma AdminTokenCutsFirstPrefix(rest: string, h: string)
    requires !Contains(h, BearerPrefix)
    ensures AdminToken(Some(BearerPrefix + rest)) == rest
    ensures AdminToken(Some(h)) == h
  {
    ReplaceFirstOfPrefix(BearerPrefix, rest);
  }

  /** For a header that holds the prefix somewhere, putting the prefix back
      where it was cut gives the header again, and nothing before that place
      held it. */
  lemma AdminTokenRestores(h: string)
    requires Contains(h, BearerPrefix)
    ensures var i := IndexOf(h, BearerPrefix);
      var t := AdminToken(Some(h));
      i <= |t| && t[..i] + BearerPrefix + t[i..] == h && !Contains(h[..i], BearerPrefix)
  {
    ReplaceFirstRemoves(h, BearerPrefix);
  }

  /** With a well-formed store, the profile let through is the caller's own: its
      firebaseUID is the verified uid. */
  lemma AdminIsCaller(header: Option<string>, verify: string -> Verification, users: map<string, UserRecord>)
    requires StoreValid(users)
    requires IsAdmin(header, verify, users).Next?
    ensures IsAdmin(header, verify, users).user.firebaseUID == verify(AdminToken(header)).token.uid
  {
  }
}
