/**
 * What both `authMiddleware`s share: reading the token out of the
 * `Authorization` header, and the claims a token carries. Signing and
 * verifying tokens (JWT) stay outside the model: verification is a
 * function the caller supplies.
 */
module Auth {
  import opened Wrappers
  import opened Http
  import Text

  /** The token payload `{ userId, username }`. */
  datatype Claims = Claims(userId: nat, username: string)

  /** The middleware's decision: answer now, or pass the request on with `req.user` set. */
  datatype Gate = Denied(reply: Reply) | Pass(user: Claims)

  /** A login either issues a token for these claims or refuses. */
  datatype LoginReply = Refused(reply: Reply) | LoggedIn(claims: Claims)

  /**
   * `req.headers['authorization']?.split(' ')[1]`, kept only when it is a
   * non-empty string (`!token` rejects `undefined` and `""`). The first piece,
   * the scheme word, is never looked at.
   */
  function BearerToken(header: Option<string>): (token: Option<string>)
    ensures token.Some? ==> header.Some? && token.value != "" && ' ' !in token.value
  {
    match header
    case None => None
    case Some(h) =>
      var pieces := Text.Split(h, ' ');
      if |pieces| >= 2 && pieces[1] != "" then Some(pieces[1]) else None
  }

  /**
   * `h` reads `scheme token rest`: one space after a space-free scheme word,
   * then the space-free token, then nothing or a part that starts with a space.
   */
  ghost predicate HeaderShape(h: string, scheme: string, token: string, rest: string)
  {
    && ' ' !in scheme && ' ' !in token && token != ""
    && h == scheme + " " + token + rest
    && (rest == "" || rest[0] == ' ')
  }

  lemma TokenOfShapedHeader(h: string, scheme: string, token: string, rest: string)
    requires HeaderShape(h, scheme, token, rest)
    ensures BearerToken(Some(h)) == Some(token)
  {
    var r := Text.Split(rest, ' ');
    assert r[0] == "" by {
      if rest != "" {
        assert r == [""] + Text.Split(rest[1..], ' ');
      }
    }
    Text.SplitAfterPlainPrefix(token, rest, ' ');
    assert token + r[0] == token;
    var tail := " " + token + rest;
    assert tail[1..] == token + rest;
    assert Text.Split(tail, ' ') == [""] + Text.Split(token + rest, ' ');
    Text.SplitAfterPlainPrefix(scheme, tail, ' ');
    assert scheme + tail == h;
    assert scheme + "" == scheme;
  }

  lemma ShapeOfTokenHeader(h: string, token: string)
    requires BearerToken(Some(h)) == Some(token)
    ensures exists scheme, rest :: HeaderShape(h, scheme, token, rest)
  {
    var pieces := Text.Split(h, ' ');
    Text.JoinOfSplit(h, ' ');
    var scheme := pieces[0];
    var rest := if |pieces| == 2 then "" else [' '] + Text.Join(pieces[2..], ' ');
    assert pieces[1..][1..] == pieces[2..];
    assert Text.Join(pieces[1..], ' ') == token + rest;
    assert h == scheme + " " + token + rest;
    assert HeaderShape(h, scheme, token, rest);
  }

  /**
   * The token is found exactly when the header has the `scheme token …`
   * shape, whatever the scheme word is: `Basic t` passes like `Bearer t`.
   */
  lemma BearerTokenIffShape(h: string, token: string)
    ensures BearerToken(Some(h)) == Some(token) <==> exists scheme, rest :: HeaderShape(h, scheme, token, rest)
  {
    if BearerToken(Some(h)) == Some(token) {
      ShapeOfTokenHeader(h, token);
    }
    if exists scheme, rest :: HeaderShape(h, scheme, token, rest) {
      var scheme, rest :| HeaderShape(h, scheme, token, rest);
      TokenOfShapedHeader(h, scheme, token, rest);
    }
  }

  /** A header without a space carries no token at all. */
  lemma NoSpaceNoToken(h: string)
    requires ' ' !in h
    ensures BearerToken(Some(h)) == None
  {
    Text.SplitAfterPlainPrefix(h, "", ' ');
    assert h + "" == h;
  }
}
