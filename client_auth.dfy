/**
 * Client authentication (src/client_api/auth.rs): reading the access token
 * of a request (a Bearer token as in section 2.1 of RFC 6750, or the
 * `access_token` query parameter), the login identifier, and the `kind=`
 * parameter of registration.
 */
module ClientAuth {
  import opened Wrappers
  import opened Errors
  import Mxid
  import Uuid
  import MemStore

  type Byte = b: int | 0 <= b < 256

  /** A header byte that `HeaderValue::to_str` accepts: visible ASCII or a tab. */
  predicate IsVisibleAscii(b: Byte) {
    (32 <= b < 127) || b == 9
  }

  /** `HeaderValue::to_str`: the text of a header made only of visible ASCII, else nothing. */
  function HeaderText(h: seq<Byte>): (r: Option<string>)
    ensures r.Some? <==> forall i :: 0 <= i < |h| ==> IsVisibleAscii(h[i])
    ensures r.Some? ==> |r.value| == |h| && forall i :: 0 <= i < |h| ==> r.value[i] as int == h[i]
  {
    if forall i :: 0 <= i < |h| ==> IsVisibleAscii(h[i]) then Some(seq(|h|, i requires 0 <= i < |h| => h[i] as char))
    else None
  }

  /** The bytes of a text whose characters are all below 256. */
  function Bytes(s: string): (h: seq<Byte>)
    requires forall i :: 0 <= i < |s| ==> s[i] as int < 256
    ensures |h| == |s| && forall i :: 0 <= i < |s| ==> h[i] == s[i] as int
  {
    seq(|s|, i requires 0 <= i < |s| => s[i] as int)
  }

  predicate StartsWith(s: string, prefix: string) {
    |prefix| <= |s| && s[..|prefix|] == prefix
  }

  /** `str::trim_start_matches` with a text pattern: every leading repetition of `p` is removed. */
  function TrimStartMatches(s: string, p: string): (r: string)
    ensures |r| <= |s| && r == s[|s| - |r|..]
    ensures |p| > 0 ==> !StartsWith(r, p)
    ensures |p| == 0 ==> r == s
    decreases |s|
  {
    if |p| > 0 && StartsWith(s, p) then TrimStartMatches(s[|p|..], p) else s
  }

  /** `str::split(c)`: the pieces between the separators, at least one. */
  function Split(s: string, c: char): (pieces: seq<string>)
    ensures |pieces| >= 1
    ensures forall i :: 0 <= i < |pieces| ==> c !in pieces[i]
    ensures Join(pieces, c) == s
    decreases |s|
  {
    match Mxid.IndexOf(s, c)
    case None => [s]
    case Some(i) => [s[..i]] + Split(s[i + 1..], c)
  }

  /** The pieces glued back together with the separator. */
  function Join(pieces: seq<string>, c: char): string
    requires |pieces| >= 1
  {
    if |pieces| == 1 then pieces[0] else pieces[0] + [c] + Join(pieces[1..], c)
  }

  /** `find(|pair| pair.starts_with(prefix))`: the first piece with the prefix. */
  function FindPrefixed(pieces: seq<string>, prefix: string): (r: Option<string>)
    ensures r.Some? ==> r.value in pieces && StartsWith(r.value, prefix)
    ensures r.Some? ==>
      exists i :: 0 <= i < |pieces| && pieces[i] == r.value && (forall j :: 0 <= j < i ==> !StartsWith(pieces[j], prefix))
    ensures r.None? <==> forall j :: 0 <= j < |pieces| ==> !StartsWith(pieces[j], prefix)
  {
    if |pieces| == 0 then None
    else if StartsWith(pieces[0], prefix) then Some(pieces[0])
    else match FindPrefixed(pieces[1..], prefix)
      case None => None
      case Some(p) =>
        assert forall j :: 1 <= j < |pieces| ==> pieces[j] == pieces[1..][j - 1];
        Some(p)
  }

  /**
   * `AccessToken::from_request`. A present Authorization header decides on
   * its own: it must be text starting with "Bearer " (else MissingToken), and
   * what follows the stripped prefixes must parse as a UUID (else
   * UnknownToken). Without one, the first query pair starting with
   * "access_token" is read after stripping "access_token="; no query string
   * or no such pair is MissingToken.
   */
  function ExtractAccessToken(header: Option<seq<Byte>>, query: Option<string>): (r: Result<Uuid.Uuid, ErrorKind>)
    ensures header.Some? && (HeaderText(header.value).None? || !StartsWith(HeaderText(header.value).value, "Bearer ")) ==>
      r == Failure(MissingToken)
    ensures header.Some? && r.Success? ==>
      Uuid.Parse(TrimStartMatches(HeaderText(header.value).value, "Bearer ")) == Some(r.value)
    ensures header.None? && query.None? ==> r == Failure(MissingToken)
    ensures header.None? && query.Some? && FindPrefixed(Split(query.value, '&'), "access_token").None? ==>
      r == Failure(MissingToken)
    ensures header.None? && r.Success? ==>
      var pair := FindPrefixed(Split(query.value, '&'), "access_token");
      pair.Some? && Uuid.Parse(TrimStartMatches(pair.value, "access_token=")) == Some(r.value)
    ensures r.Failure? ==> r.error in {MissingToken, UnknownToken}
    ensures header.Some? && HeaderText(header.value).Some? && StartsWith(HeaderText(header.value).value, "Bearer ") ==>
      var parsed := Uuid.Parse(TrimStartMatches(HeaderText(header.value).value, "Bearer "));
      (r.Success? <==> parsed.Some?) && (parsed.None? ==> r == Failure(UnknownToken))
    ensures header.None? && query.Some? && FindPrefixed(Split(query.value, '&'), "access_token").Some? ==>
      var parsed := Uuid.Parse(TrimStartMatches(FindPrefixed(Split(query.value, '&'), "access_token").value, "access_token="));
      (r.Success? <==> parsed.Some?) && (parsed.None? ==> r == Failure(UnknownToken))
  {
    match header
    case Some(h) =>
      (match HeaderText(h)
       case None => Failure(MissingToken)
       case Some(s) =>
         if !StartsWith(s, "Bearer ") then Failure(MissingToken)
         else match Uuid.Parse(TrimStartMatches(s, "Bearer "))
           case None => Failure(UnknownToken)
           case Some(token) => Success(token))
    case None =>
      if query.None? then Failure(MissingToken)
      else match FindPrefixed(Split(query.value, '&'), "access_token")
        case None => Failure(MissingToken)
        case Some(pair) =>
          match Uuid.Parse(TrimStartMatches(pair, "access_token="))
          case None => Failure(UnknownToken)
          case Some(token) => Success(token)
  }

  /** When an Authorization header is present, the query string plays no part. */
  lemma HeaderWins(header: seq<Byte>, q1: Option<string>, q2: Option<string>)
    ensures ExtractAccessToken(Some(header), q1) == ExtractAccessToken(Some(header), q2)
  {
  }

  /** Stripping a prefix once from text that does not start with it again leaves exactly that text. */
  lemma TrimOnce(p: string, t: string)
    requires |p| > 0 && !StartsWith(t, p)
    ensures TrimStartMatches(p + t, p) == t
  {
    assert (p + t)[..|p|] == p;
    assert (p + t)[|p|..] == t;
  }

  /** The hyphenated form of a token is visible ASCII and starts with neither prefix the extractor strips. */
  lemma HyphenatedShape(u: Uuid.Uuid)
    ensures forall i :: 0 <= i < |Uuid.Hyphenated(u)| ==> 32 <= Uuid.Hyphenated(u)[i] as int < 127
    ensures !StartsWith(Uuid.Hyphenated(u), "Bearer ")
    ensures !StartsWith(Uuid.Hyphenated(u), "access_token=")
  {
    var h := Uuid.Hyphenated(u);
    assert h[3] != "Bearer "[3];
    assert h[4] != "access_token="[4];
  }

  /** Reading the bytes of visible ASCII text as a header gives the text back. */
  lemma HeaderTextOfBytes(s: string)
    requires forall i :: 0 <= i < |s| ==> 32 <= s[i] as int < 127
    ensures HeaderText(Bytes(s)) == Some(s)
  {
    var h := Bytes(s);
    assert forall i :: 0 <= i < |h| ==> IsVisibleAscii(h[i]);
    var t := seq(|h|, i requires 0 <= i < |h| => h[i] as char);
    assert forall i :: 0 <= i < |s| ==> t[i] == s[i];
    assert t == s;
  }

  /** The first piece of a split is everything before the first separator. */
  lemma SplitFirstPiece(p: string, rest: string, c: char)
    requires c !in p
    ensures Split(p + [c] + rest, c)[0] == p
  {
    var q := p + [c] + rest;
    assert q[..|p|] == p;
    assert q[|p|] == c;
    Mxid.IndexOfAt(q, c, |p|);
  }

  /** Stripping the prefix from prefix + t is stripping it from t. */
  lemma TrimPrefix(p: string, t: string)
    requires |p| > 0
    ensures TrimStartMatches(p + t, p) == TrimStartMatches(t, p)
  {
    assert (p + t)[..|p|] == p;
    assert (p + t)[|p|..] == t;
  }

  /** A header "Bearer " + t of visible ASCII reads t with every further "Bearer " stripped. */
  lemma BearerHeader(t: string, query: Option<string>)
    requires forall i :: 0 <= i < |t| ==> 32 <= t[i] as int < 127
    ensures forall i :: 0 <= i < |"Bearer " + t| ==> ("Bearer " + t)[i] as int < 256
    ensures ExtractAccessToken(Some(Bytes("Bearer " + t)), query) ==
      match Uuid.Parse(TrimStartMatches(t, "Bearer ")) case Some(u) => Success(u) case None => Failure(UnknownToken)
  {
    var s := "Bearer " + t;
    assert forall i :: 0 <= i < |s| ==> 32 <= s[i] as int < 127;
    HeaderTextOfBytes(s);
    assert s[..7] == "Bearer ";
    TrimPrefix("Bearer ", t);
  }

  /** "Bearer " followed by the token the server handed out authenticates as that token, whatever the query says. */
  lemma BearerTokenRoundTrip(u: Uuid.Uuid, query: Option<string>)
    ensures forall i :: 0 <= i < |"Bearer " + Uuid.Hyphenated(u)| ==> ("Bearer " + Uuid.Hyphenated(u))[i] as int < 256
    ensures ExtractAccessToken(Some(Bytes("Bearer " + Uuid.Hyphenated(u))), query) == Success(u)
  {
    HyphenatedShape(u);
    Uuid.ParseHyphenated(u);
    BearerHeader(Uuid.Hyphenated(u), query);
  }

  /** "Bearer " + t is visible ASCII when t is. */
  lemma BearerVisible(t: string)
    requires forall i :: 0 <= i < |t| ==> 32 <= t[i] as int < 127
    ensures forall i :: 0 <= i < |"Bearer " + t| ==> 32 <= ("Bearer " + t)[i] as int < 127
  {
  }

  /** The prefix is stripped as often as it repeats: "Bearer Bearer <token>" is accepted too. */
  lemma RepeatedBearerAccepted(u: Uuid.Uuid)
    ensures forall i :: 0 <= i < |"Bearer Bearer " + Uuid.Hyphenated(u)| ==> ("Bearer Bearer " + Uuid.Hyphenated(u))[i] as int < 256
    ensures ExtractAccessToken(Some(Bytes("Bearer Bearer " + Uuid.Hyphenated(u))), None) == Success(u)
  {
    var t := Uuid.Hyphenated(u);
    var s := "Bearer " + t;
    HyphenatedShape(u);
    BearerVisible(t);
    BearerVisible(s);
    assert "Bearer Bearer " + t == "Bearer " + s;
    StripTokenBearer(u);
    Uuid.ParseHyphenated(u);
    BearerHeader(s, None);
  }

  /** One "Bearer " before the token strips down to the token. */
  lemma StripTokenBearer(u: Uuid.Uuid)
    ensures TrimStartMatches("Bearer " + Uuid.Hyphenated(u), "Bearer ") == Uuid.Hyphenated(u)
  {
    var t := Uuid.Hyphenated(u);
    TrimPrefix("Bearer ", t);
    HyphenatedShape(u);
  }

  /** Without a header, a first query pair starting with "access_token" decides alone. */
  lemma FirstQueryPairDecides(pair: string, rest: string)
    requires '&' !in pair && StartsWith(pair, "access_token")
    ensures ExtractAccessToken(None, Some(pair + "&" + rest)) ==
      match Uuid.Parse(TrimStartMatches(pair, "access_token=")) case Some(u) => Success(u) case None => Failure(UnknownToken)
  {
    assert pair + "&" + rest == pair + ['&'] + rest;
    SplitFirstPiece(pair, rest, '&');
  }

  /** Without a header, "access_token=<token>" as the first query pair authenticates as that token. */
  lemma QueryTokenRoundTrip(u: Uuid.Uuid, rest: string)
    ensures ExtractAccessToken(None, Some("access_token=" + Uuid.Hyphenated(u) + "&" + rest)) == Success(u)
  {
    var t := Uuid.Hyphenated(u);
    var pair := "access_token=" + t;
    HyphenatedShape(u);
    assert '&' !in pair by {
      assert forall i :: 13 <= i < |pair| ==> pair[i] == t[i - 13];
    }
    assert pair[..12] == "access_token";
    FirstQueryPairDecides(pair, rest);
    TrimOnce("access_token=", t);
    Uuid.ParseHyphenated(u);
  }

  /** The pair "access_tokens=x" is named like the token but does not hold one. */
  lemma LongerNamePair()
    ensures '&' !in "access_tokens=x" && StartsWith("access_tokens=x", "access_token")
    ensures Uuid.Parse(TrimStartMatches("access_tokens=x", "access_token=")).None?
  {
    var pair := "access_tokens=x";
    assert pair[..12] == "access_token";
    assert !StartsWith(pair, "access_token=") by {
      assert pair[12] != "access_token="[12];
    }
    assert TrimStartMatches(pair, "access_token=") == pair;
  }

  /** A pair that merely starts with "access_token" is still the one chosen, and then fails to parse. */
  lemma LongerNameShadowsToken(rest: string)
    ensures ExtractAccessToken(None, Some("access_tokens=x&" + rest)) == Failure(UnknownToken)
  {
    assert "access_tokens=x&" + rest == "access_tokens=x" + "&" + rest;
    LongerNamePair();
    FirstQueryPairDecides("access_tokens=x", rest);
  }

  /** The login identifier kinds. */
  datatype Identifier =
    | UserIdentifier(user: string)
    | ThirdParty(medium: string, address: string)
    | Phone(country: string, phone: string)

  /**
   * The user a login names: for m.id.user, the localpart of a Matrix id, or
   * the text itself when it is not one. Other identifiers and a missing
   * password are Unimplemented.
   */
  function LoginUser(identifier: Identifier, password: Option<string>): (r: Result<(string, string), ErrorKind>)
    ensures !identifier.UserIdentifier? ==> r == Failure(Unimplemented)
    ensures identifier.UserIdentifier? && password.None? ==> r == Failure(Unimplemented)
    ensures r.Success? ==> identifier.UserIdentifier? && password == Some(r.value.1)
    ensures r.Success? && Mxid.ParseMatrixId(identifier.user).None? ==> r.value.0 == identifier.user
    ensures r.Success? && Mxid.ParseMatrixId(identifier.user).Some? ==> ':' !in r.value.0
  {
    match identifier
    case UserIdentifier(user) =>
      var username := match Mxid.ParseMatrixId(user)
        case Some(id) => Mxid.Username(id)
        case None => user;
      if password.None? then Failure(Unimplemented) else Success((username, password.value))
    case ThirdParty(_, _) => Failure(Unimplemented)
    case Phone(_, _) => Failure(Unimplemented)
  }

  /** Logging in with a full Matrix id names the same user as logging in with its localpart. */
  lemma LoginFullIdIsLocalpart(username: string, domain: string, password: string)
    requires ':' !in username && |username| > 0 && username[0] != '@'
    ensures LoginUser(UserIdentifier(Mxid.New(username, domain)), Some(password)) == Success((username, password))
  {
    Mxid.UsernameOfNew(username, domain);
    var id := Mxid.New(username, domain);
    assert id[0] == '@';
    assert id[|username| + 1] == ':';
  }

  datatype LoginResponse = LoginResponse(userId: Mxid.MatrixId, accessToken: string, deviceId: string, homeServer: string)

  /**
   * `login` against the in-memory store. `verify` is argon2's check of a
   * password against a stored hash (None for its error), and `token` and
   * `randomDevice` stand for the random values. A name no stored user has,
   * or a password the check refuses, is Forbidden. Otherwise a token is
   * issued to the user and returned in hyphenated form with the user's
   * Matrix id.
   */
  method Login(store: MemStore.MemStorage, identifier: Identifier, password: Option<string>,
               deviceId: Option<string>, verify: (string, string) -> Option<bool>, token: Uuid.Uuid,
               randomDevice: string, domain: string)
    returns (r: Result<LoginResponse, ErrorKind>)
    modifies store
    ensures LoginUser(identifier, password).Failure? ==>
      r == Failure(LoginUser(identifier, password).error) && store.accessTokens == old(store.accessTokens)
    ensures LoginUser(identifier, password).Success? ==>
      var (username, pw) := LoginUser(identifier, password).value;
      (r.Success? <==> old(store.VerifyPassword(username, pw, verify))) &&
      (r.Failure? ==> r == Failure(Forbidden) && store.accessTokens == old(store.accessTokens))
    ensures LoginUser(identifier, password).Success? && old(store.FindUser(LoginUser(identifier, password).value.0)).None? ==>
      r == Failure(Forbidden)
    ensures r.Success? ==>
      var username := LoginUser(identifier, password).value.0;
      store.accessTokens == old(store.accessTokens)[token := username] &&
      store.TryAuth(token) == Some(username) &&
      r.value == LoginResponse(Mxid.New(username, domain), Uuid.Hyphenated(token),
        if deviceId.Some? then deviceId.value else randomDevice, domain)
    ensures r.Success? ==> Uuid.Parse(r.value.accessToken) == Some(token)
    ensures store.rooms == old(store.rooms) && store.users == old(store.users) && store.txnIds == old(store.txnIds)
  {
    var user := LoginUser(identifier, password);
    if user.Failure? {
      return Failure(user.error);
    }
    var (username, pw) := user.value;
    if !store.VerifyPassword(username, pw, verify) {
      return Failure(Forbidden);
    }
    var device := if deviceId.Some? then deviceId.value else randomDevice;
    var issued := store.CreateAccessToken(username, token);
    Uuid.ParseHyphenated(issued);
    r := Success(LoginResponse(Mxid.New(username, domain), Uuid.Hyphenated(issued), device, domain));
  }

  /**
   * The `kind=` dispatch of `register`: the first query pair starting with
   * "kind=" must be "kind=user"; "kind=guest" is Unimplemented, any other
   * such pair InvalidParam of the pair, and none MissingParam("kind").
   */
  function RegisterKind(queryString: string): (r: Result<(), ErrorKind>)
    ensures r.Success? <==> FindPrefixed(Split(queryString, '&'), "kind=") == Some("kind=user")
    ensures FindPrefixed(Split(queryString, '&'), "kind=") == Some("kind=guest") ==> r == Failure(Unimplemented)
    ensures FindPrefixed(Split(queryString, '&'), "kind=").None? ==> r == Failure(MissingParam("kind"))
    ensures r.Failure? && r.error.InvalidParam? ==>
      Some(r.error.param) == FindPrefixed(Split(queryString, '&'), "kind=") &&
      r.error.param != "kind=user" && r.error.param != "kind=guest"
  {
    match FindPrefixed(Split(queryString, '&'), "kind=")
    case Some(pair) =>
      if pair == "kind=user" then Success(())
      else if pair == "kind=guest" then Failure(Unimplemented)
      else Failure(InvalidParam(pair))
    case None => Failure(MissingParam("kind"))
  }

  /** Only the first kind= pair counts: a later "kind=user" does not rescue a guest registration. */
  lemma FirstKindPairDecides(rest: string)
    ensures RegisterKind("kind=guest&" + rest) == Failure(Unimplemented)
  {
    var q := "kind=guest&" + rest;
    assert q == "kind=guest" + ['&'] + rest;
    SplitFirstPiece("kind=guest", rest, '&');
    var pieces := Split(q, '&');
    assert "kind=guest"[..5] == "kind=";
    assert StartsWith(pieces[0], "kind=");
    assert FindPrefixed(pieces, "kind=") == Some("kind=guest");
  }
}
