/** Bearer-token extraction (`getBearerToken`, src/lib/auth.js) and the
    authentication prelude of the merchant routes. This is a stricter form of
    the `Authorization: Bearer` syntax of section 2.1 of RFC 6750: the scheme
    is case-sensitive and exactly one space must follow it. */
module Auth {
  import opened Base
  import opened JsText
  import opened Http
  import opened Oracles

  /** The first segment is "Bearer" and a second one exists exactly when the
      header starts with "Bearer "; the later segments are then those of the
      rest of the header. */
  lemma BearerSplit(header: string)
    ensures var parts := Split(header, ' ');
      parts[0] == "Bearer" && |parts| >= 2 <==> StartsWith(header, "Bearer ")
    ensures StartsWith(header, "Bearer ") ==> Split(header, ' ') == ["Bearer"] + Split(header[7..], ' ')
  {
    SplitHead(header, ' ', "Bearer");
    if StartsWith(header, "Bearer ") {
      assert header == "Bearer" + [' '] + header[7..];
      SplitCons("Bearer", ' ', header[7..]);
    }
  }

  /** `const [type, token] = header.split(" ")`; a token only when `type` is
      exactly "Bearer" and `token` is non-empty. A missing header is `""`. */
  function GetBearerToken(header: string): (r: Option<string>)
    ensures r.Some? ==> r.value != "" && ' ' !in r.value && StartsWith(header, "Bearer ")
  {
    BearerSplit(header);
    var parts := Split(header, ' ');
    if parts[0] != "Bearer" || |parts| < 2 || parts[1] == "" then None
    else Some(parts[1])
  }

  /** "Bearer " followed by `t` is a prefix exactly when "Bearer " is and the
      rest of the header starts with `t`. */
  lemma BearerPrefix(header: string, t: string)
    requires StartsWith(header, "Bearer ")
    ensures StartsWith(header, "Bearer " + t) <==> StartsWith(header[7..], t)
  {
    var rest := header[7..];
    if StartsWith(rest, t) {
      assert header[..7 + |t|] == header[..7] + rest[..|t|];
    }
    if StartsWith(header, "Bearer " + t) {
      assert rest[..|t|] == header[..7 + |t|][7..];
    }
  }

  /** The token is the text between "Bearer " and the next space or the end
      of the header; anything after that space is ignored. */
  lemma BearerTokenIff(header: string, t: string)
    ensures GetBearerToken(header) == Some(t) <==>
      && t != "" && ' ' !in t
      && StartsWith(header, "Bearer " + t)
      && (|header| == 7 + |t| || header[7 + |t|] == ' ')
  {
    BearerSplit(header);
    if StartsWith(header, "Bearer ") {
      var rest := header[7..];
      BearerPrefix(header, t);
      SplitHead(rest, ' ', t);
      assert GetBearerToken(header) == Some(t) <==> t != "" && Split(rest, ' ')[0] == t;
      if |header| > 7 + |t| {
        assert header[7 + |t|] == rest[|t|];
      }
      if StartsWith(rest, t) && |header| == 7 + |t| {
        assert rest == t;
      }
    }
  }

  /** The scheme is matched case-sensitively: a header whose first seven
      characters spell "Bearer " in any other letter case, such as
      "bearer abc", yields no token. */
  lemma LowerCaseSchemeRejected(header: string)
    requires |header| >= 7 && Lower(header[..7]) == "bearer " && header[..7] != "Bearer "
    ensures GetBearerToken(header) == None
  {
  }

  /** A bare "Bearer", and "Bearer" followed by two spaces whatever comes
      after, yield no token: the second segment is empty. */
  lemma EmptySecondSegmentRejected(rest: string)
    ensures GetBearerToken("Bearer") == None
    ensures GetBearerToken("Bearer " + [' '] + rest) == None
  {
    BearerSplit("Bearer");
    var h := "Bearer " + [' '] + rest;
    assert h[..7] == "Bearer ";
    BearerSplit(h);
    assert h[7..] == "" + [' '] + rest;
    SplitCons("", ' ', rest);
  }

  /** Segments after the second are ignored: "Bearer t rest" yields `t`. */
  lemma ExtraSegmentsIgnored(t: string, rest: string)
    requires t != "" && ' ' !in t
    ensures GetBearerToken("Bearer " + t + [' '] + rest) == Some(t)
  {
    var h := "Bearer " + t + [' '] + rest;
    assert h[..7] == "Bearer ";
    BearerSplit(h);
    assert h[7..] == t + [' '] + rest;
    SplitCons(t, ' ', rest);
  }

  /** The merchant routes' prelude: no bearer token answers 401; a token the
      verifier rejects throws into the route's generic handler (500); an
      accepted token yields its `sub` claim, the merchant id. */
  function Authenticate(env: Env, header: string): (r: Step<string>)
    ensures GetBearerToken(header).None? ==> r == Halt(Bad(401, MissingBearer))
    ensures r.Go? <==> exists t :: GetBearerToken(header) == Some(t) && env.verifyToken(t).Normal?
    ensures r.Go? ==> env.verifyToken(GetBearerToken(header).value) == Normal(r.value)
  {
    match GetBearerToken(header)
    case None => Halt(Bad(401, MissingBearer))
    case Some(token) =>
      match env.verifyToken(token)
      case Throw(m) => Halt(Bad(500, ServerError(ErrorMessage(m))))
      case Normal(sub) => Go(sub)
  }
}
