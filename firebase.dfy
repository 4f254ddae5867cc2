/** What the middleware gets from the identity provider and how it reads the
    Authorization header. Token verification (`verifyIdToken`) is a call into
    the identity provider's SDK; the model takes it as a parameter. */
module Firebase {
  import opened Common
  import opened Strings

  /** A verified ID token; `uid` is "" when the token carries none. */
  datatype DecodedToken = DecodedToken(uid: string)

  /** The result of `verifyIdToken`: the decoded token, or an exception. */
  datatype Verification = Verified(token: DecodedToken) | Failed

  /** A middleware's decision: call `next` with `req.user` set to `user`, or
      answer with `status`. */
  datatype Gate<U> = Next(user: U) | Deny(status: int)

  const BearerPrefix: string := "Bearer "

  /** `header?.startsWith("Bearer ") ? header.split(" ")[1] : null`: the text
      after the case-sensitive prefix up to the next space, which is "" when
      another space or nothing follows the prefix. */
  function BearerToken(header: Option<string>): (t: Option<string>)
    ensures t.Some? <==> header.Some? && StartsWith(header.value, BearerPrefix)
    ensures t.Some? ==>
      && ' ' !in t.value
      && |BearerPrefix| + |t.value| <= |header.value|
      && header.value[|BearerPrefix|..|BearerPrefix| + |t.value|] == t.value
      && (|header.value| == |BearerPrefix| + |t.value| || header.value[|BearerPrefix| + |t.value|] == ' ')
  {
    if header.Some? && StartsWith(header.value, BearerPrefix) then
      var h := header.value;
      var rest := h[|BearerPrefix|..];
      assert h == "Bearer" + [' '] + rest;
      SplitAfterWord("Bearer", ' ', rest);
      SplitFieldsHaveNoSeparator(rest, ' ');
      SplitHead(rest, ' ');
      Some(Split(h, ' ')[1])
    else None
  }

  /** A header of the prefix, then a word free of spaces, then nothing or a
      space, yields exactly that word. */
  lemma BearerTokenOf(word: string, rest: string)
    requires ' ' !in word
    requires rest == [] || rest[0] == ' '
    ensures BearerToken(Some(BearerPrefix + word + rest)) == Some(word)
  {
    var h := BearerPrefix + word + rest;
    assert h[..|BearerPrefix|] == BearerPrefix;
    var t := BearerToken(Some(h)).value;
    var n := |BearerPrefix|;
    assert h[n..n + |word|] == word;
  }

  /** The characters of a b64token (section 2.1 of RFC 6750). */
  predicate B64Char(c: char)
  {
    ('a' <= c <= 'z') || ('A' <= c <= 'Z') || ('0' <= c <= '9') || c in "-._~+/"
  }

  /** `b64token = 1*( ALPHA / DIGIT / "-" / "." / "_" / "~" / "+" / "/" ) *"="`. */
  predicate B64Token(t: string)
  {
    && |t| >= 1 && B64Char(t[0])
    && (forall i :: 0 <= i < |t| ==> B64Char(t[i]) || t[i] == '=')
    && (forall i, j :: 0 <= i < j < |t| && t[i] == '=' ==> t[j] == '=')
  }

  /** ASCII case folding. */
  function Lower(c: char): char
  {
    if 'A' <= c <= 'Z' then (c as int + 32) as char else c
  }

  /** Two texts equal up to ASCII case: how section 2.1 of RFC 7235 compares
      authentication scheme names. */
  predicate SameIgnoringCase(a: string, b: string)
  {
    |a| == |b| && forall i :: 0 <= i < |a| ==> Lower(a[i]) == Lower(b[i])
  }

  function Spaces(n: nat): (s: string)
    ensures |s| == n && forall i :: 0 <= i < n ==> s[i] == ' '
  {
    if n == 0 then "" else Spaces(n - 1) + " "
  }

  /** The header value of section 2.1 of RFC 6750: the scheme, one or more
      spaces, and a b64token. */
  predicate Rfc6750Credentials(scheme: string, spaces: nat, token: string)
  {
    SameIgnoringCase(scheme, "Bearer") && spaces >= 1 && B64Token(token)
  }

  /** Credentials written with the canonical scheme and a single space yield
      the whole token. */
  lemma CanonicalCredentials(token: string)
    requires Rfc6750Credentials("Bearer", 1, token)
    ensures BearerToken(Some("Bearer" + Spaces(1) + token)) == Some(token)
  {
    assert ' ' !in token by {
      forall i | 0 <= i < |token| ensures token[i] != ' ' {
        assert B64Char(token[i]) || token[i] == '=';
      }
    }
    assert "Bearer" + Spaces(1) + token == BearerPrefix + token + [];
    BearerTokenOf(token, []);
  }

  /** Two spellings the RFC allows, a lower-case scheme and more than one
      space, do not yield the token: the first yields nothing and the second
      the empty text. */
  lemma NonCanonicalCredentials(token: string)
    requires B64Token(token)
    ensures Rfc6750Credentials("bearer", 1, token) && BearerToken(Some("bearer" + Spaces(1) + token)).None?
    ensures Rfc6750Credentials("Bearer", 2, token) && BearerToken(Some("Bearer" + Spaces(2) + token)) == Some("")
  {
    assert SameIgnoringCase("bearer", "Bearer") by {
      forall i | 0 <= i < 6 ensures Lower("bearer"[i]) == Lower("Bearer"[i]) {
        if i == 0 {
          assert Lower('B') == 'b';
        }
      }
    }
    assert SameIgnoringCase("Bearer", "Bearer");
    var h1 := "bearer" + Spaces(1) + token;
    assert h1[0] == 'b';
    assert h1[0] != BearerPrefix[0];
    var h2 := "Bearer" + Spaces(2) + token;
    assert h2[..7] == BearerPrefix;
    assert h2[7] == ' ';
  }
}
