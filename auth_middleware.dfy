/** `authenticateToken`: takes the second space-separated field of the
    `Authorization` header (a loose form of the `Bearer` scheme of section 2.1
    of RFC 6750) and verifies it as an access token. */
module AuthMiddleware {
  import opened Common
  import opened Jwt
  import ErrorHandler

  /** `s.split(' ')`: the fields between single spaces; empty fields are kept. */
  function Split(s: string): (r: seq<string>)
    ensures |r| >= 1
    ensures forall i :: 0 <= i < |r| ==> ' ' !in r[i]
  {
    if s == "" then [""]
    else
      var rest := Split(s[1..]);
      if s[0] == ' ' then [""] + rest else [[s[0]] + rest[0]] + rest[1..]
  }

  /** The fields joined back with single spaces. */
  function Join(fields: seq<string>): string
    requires |fields| >= 1
  {
    if |fields| == 1 then fields[0] else fields[0] + " " + Join(fields[1..])
  }

  /** One unfolding of `Join` on a list of at least two fields. */
  lemma JoinUnfold(fields: seq<string>)
    requires |fields| >= 2
    ensures Join(fields) == fields[0] + " " + Join(fields[1..])
  {
  }

  /** Concatenation regroups; kept apart so the solver sees it without `Join` in scope. */
  lemma Assoc(a: string, b: string, d: string)
    ensures (a + b) + d == a + (b + d)
  {
  }

  lemma JoinPrepend(c: char, fields: seq<string>)
    requires |fields| >= 1
    ensures Join([[c] + fields[0]] + fields[1..]) == [c] + Join(fields)
  {
    var head := [c] + fields[0];
    var fs := [head] + fields[1..];
    if |fields| > 1 {
      var tail := Join(fields[1..]);
      assert fs[0] == head && fs[1..] == fields[1..];
      JoinUnfold(fs);
      JoinUnfold(fields);
      Assoc([c], fields[0], " ");
      Assoc([c], fields[0] + " ", tail);
    } else {
      assert fs == [head];
    }
  }

  /** Splitting loses nothing: joining the fields gives the header back. */
  lemma {:induction false} SplitJoin(s: string)
    ensures Join(Split(s)) == s
  {
    if s != "" {
      var rest := Split(s[1..]);
      SplitJoin(s[1..]);
      if s[0] == ' ' {
        assert ([""] + rest)[1..] == rest;
      } else {
        JoinPrepend(s[0], rest);
      }
      assert s == [s[0]] + s[1..];
    }
  }

  /** A string without a space is a single field. */
  lemma {:induction false} SplitNoSpace(s: string)
    requires ' ' !in s
    ensures Split(s) == [s]
  {
    if s != "" {
      SplitNoSpace(s[1..]);
      assert [s[0]] + s[1..] == s;
    }
  }

  /** A space-free prefix followed by a space is the first field. */
  lemma {:induction false} SplitAfterField(p: string, rest: string)
    requires ' ' !in p
    ensures Split(p + " " + rest) == [p] + Split(rest)
  {
    if p != "" {
      SplitAfterField(p[1..], rest);
      assert (p + " " + rest)[1..] == p[1..] + " " + rest;
      assert [p[0]] + p[1..] == p;
    } else {
      assert (p + " " + rest)[1..] == rest;
    }
  }

  /** A space-free prefix that ends the string or is followed by a space is the first field. */
  lemma {:induction false} SplitFirstField(p: string, rest: string)
    requires ' ' !in p
    requires rest == "" || rest[0] == ' '
    ensures Split(p + rest)[0] == p
  {
    if p != "" {
      SplitFirstField(p[1..], rest);
      assert (p + rest)[1..] == p[1..] + rest;
      assert [p[0]] + p[1..] == p;
    } else if rest != "" {
      assert p + rest == rest;
    }
  }

  /** `authHeader && authHeader.split(' ')[1]`, kept only when it is a non-empty string. */
  function BearerToken(header: Option<string>): (r: Option<string>)
    ensures header.None? ==> r.None?
    ensures r.Some? ==> && header.Some? && |Split(header.value)| >= 2
                        && r.value == Split(header.value)[1] && r.value != "" && ' ' !in r.value
  {
    if header.None? || header.value == "" then None
    else
      var fields := Split(header.value);
      if |fields| >= 2 && fields[1] != "" then Some(fields[1]) else None
  }

  /** Any scheme word, a space, a non-empty space-free token, then nothing or a
      space and anything: the token is found, whatever the scheme word says. */
  lemma BearerTokenOf(scheme: string, token: string, rest: string)
    requires ' ' !in scheme && ' ' !in token && token != ""
    requires rest == "" || rest[0] == ' '
    ensures BearerToken(Some(scheme + " " + token + rest)) == Some(token)
  {
    assert scheme + " " + token + rest == scheme + " " + (token + rest);
    SplitAfterField(scheme, token + rest);
    SplitFirstField(token, rest);
  }

  /** Conversely, a header yields a token only in that shape: first field, a
      space, the token (non-empty, space-free), then possibly a space and more. */
  lemma BearerTokenShape(header: string)
    requires BearerToken(Some(header)).Some?
    ensures var token := BearerToken(Some(header)).value;
      && token != "" && ' ' !in token
      && var fields := Split(header);
         ' ' !in fields[0]
         && header == fields[0] + " " + token + (if |fields| > 2 then " " + Join(fields[2..]) else "")
  {
    var fields := Split(header);
    SplitJoin(header);
    assert fields[1..][1..] == fields[2..];
  }

  /** A header without a space carries no token. */
  lemma NoSpaceNoToken(header: string)
    requires ' ' !in header
    ensures BearerToken(Some(header)) == None
  {
    SplitNoSpace(header);
  }

  /** A header that ends right after its first space carries no token. */
  lemma EmptySecondFieldNoToken(scheme: string)
    requires ' ' !in scheme
    ensures BearerToken(Some(scheme + " ")) == None
  {
    assert scheme + " " == scheme + " " + "";
    SplitAfterField(scheme, "");
  }

  /** The scheme word is not checked and fields after the second are ignored. */
  lemma LooseSchemeExample()
    ensures BearerToken(Some("X a b")) == Some("a")
    ensures BearerToken(Some("Bearer ")) == None
    ensures BearerToken(Some("Bearer")) == None
  {
    BearerTokenOf("X", "a", " b");
    assert "X" + " " + "a" + " b" == "X a b";
    EmptySecondFieldNoToken("Bearer");
    assert "Bearer" + " " == "Bearer ";
    NoSpaceNoToken("Bearer");
  }

  datatype AuthOutcome =
    | Authenticated(user: Claims)   // `req.user = decoded; next()`
    | Rejected(err: Error)          // `next(error)`

  /** The middleware at time `now`. `decode` reads a token's compact serialization
      (RFC 7515 section 7.1); text that is not a token decodes to `None`.
      `signed` holds the tokens the server has signed. */
  function Authenticate(header: Option<string>, decode: string -> Option<Tok>, signed: set<Tok>, now: int)
    : (r: AuthOutcome)
    ensures BearerToken(header).None? <==> r == Rejected(Error(Some(401), "No token provided"))
    ensures r.Authenticated? <==>
      && BearerToken(header).Some?
      && var tok := decode(BearerToken(header).value);
         tok.Some? && tok.value in signed && tok.value.kind == Access && now < tok.value.expiresAt
    ensures r.Authenticated? ==>
      var tok := decode(BearerToken(header).value);
      r.user == Claims(tok.value.userId, tok.value.email)
    ensures r.Rejected? && BearerToken(header).Some? ==>
      r.err.statusCode.None? && r.err.message != ""
  {
    match BearerToken(header)
    case None => Rejected(Error(Some(401), "No token provided"))
    case Some(token) =>
      match decode(token)
      case None => Rejected(Error(None, "jwt malformed"))
      case Some(tok) =>
        match Verify(tok, Access, signed, now)
        case Success(claims) => Authenticated(claims)
        case Failure(e) => Rejected(e)
  }

  /** A missing token reaches the client as a 401; a token that fails
      verification reaches it as a 500 carrying the library's message. */
  lemma RejectionStatus(header: Option<string>, decode: string -> Option<Tok>, signed: set<Tok>, now: int)
    requires Authenticate(header, decode, signed, now).Rejected?
    ensures var err := Authenticate(header, decode, signed, now).err;
      ErrorHandler.Handle(err, false) ==
        if BearerToken(header).None? then ErrorHandler.Responded(401, Notice("No token provided"))
        else ErrorHandler.Responded(500, Notice(err.message))
  {
  }
}
