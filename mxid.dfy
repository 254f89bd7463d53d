/**
 * Matrix user ids of the form "@localpart:domain", held as plain text
 * (src/util/mxid.rs).
 */
module Mxid {
  import opened Wrappers

  type MatrixId = string

  /** The first index at which `c` occurs in `s`, if any. */
  function IndexOf(s: string, c: char): (r: Option<nat>)
    ensures r.Some? ==> r.value < |s| && s[r.value] == c && c !in s[..r.value]
    ensures r.None? <==> c !in s
  {
    if |s| == 0 then None
    else if s[0] == c then Some(0)
    else match IndexOf(s[1..], c)
      case None => None
      case Some(i) => assert s[1..][..i] == s[1..i + 1]; Some(i + 1)
  }

  /** The first piece of `s.split(c)`: everything before the first `c`. */
  function BeforeFirst(s: string, c: char): (r: string)
    ensures c !in r
    ensures c in s ==> |r| < |s| && s == r + [c] + s[|r| + 1..]
    ensures c !in s ==> r == s
  {
    match IndexOf(s, c)
    case None => s
    case Some(i) => s[..i]
  }

  /** `s.trim_start_matches(c)`: `s` without any leading run of `c`. */
  function TrimStartChar(s: string, c: char): (r: string)
    ensures |r| <= |s| && r == s[|s| - |r|..]
    ensures |r| == 0 || r[0] != c
    ensures forall i :: 0 <= i < |s| - |r| ==> s[i] == c
  {
    if |s| > 0 && s[0] == c then TrimStartChar(s[1..], c) else s
  }

  /** `MatrixId::new`: the id "@" + username + ":" + domain. */
  function New(username: string, domain: string): (id: MatrixId)
    ensures |id| == |username| + |domain| + 2
    ensures id[0] == '@' && id[|username| + 1] == ':'
    ensures id[1..|username| + 1] == username && id[|username| + 2..] == domain
  {
    "@" + username + ":" + domain
  }

  /** `MatrixId::username`: leading '@'s dropped, then everything before the first ':'. */
  function Username(id: MatrixId): (u: string)
    ensures ':' !in u
    ensures |u| == 0 || u[0] != '@'
  {
    BeforeFirst(TrimStartChar(id, '@'), ':')
  }

  /**
   * `MatrixId::domain`: the second ':'-separated piece. The source unwraps,
   * so an id without ':' is a panic, here None.
   */
  function Domain(id: MatrixId): (d: Option<string>)
    ensures d.None? <==> ':' !in id
    ensures d.Some? ==> ':' !in d.value
  {
    match IndexOf(id, ':')
    case None => None
    case Some(i) => Some(BeforeFirst(id[i + 1..], ':'))
  }

  /**
   * The localpart of an id that parses as a Matrix user id. The parser is
   * not part of this model's sources; it is taken to accept text that starts
   * with '@' and holds a ':'.
   */
  function ParseMatrixId(s: string): (r: Option<MatrixId>)
    ensures r.Some? <==> |s| > 0 && s[0] == '@' && ':' in s
    ensures r.Some? ==> r.value == s && Domain(r.value).Some?
  {
    if |s| > 0 && s[0] == '@' && ':' in s then Some(s) else None
  }

  /** Username undoes New whenever the username has no ':' and does not start with '@'. */
  lemma UsernameOfNew(username: string, domain: string)
    requires ':' !in username
    requires |username| == 0 || username[0] != '@'
    ensures Username(New(username, domain)) == username
  {
    var id := New(username, domain);
    assert id == "@" + (username + ":" + domain);
    assert TrimStartChar(id, '@') == TrimStartChar(username + ":" + domain, '@');
    assert TrimStartChar(username + ":" + domain, '@') == username + ":" + domain;
    assert (username + ":" + domain)[..|username|] == username;
    assert (username + ":" + domain)[|username|] == ':';
    BeforeFirstAt(username + ":" + domain, ':', |username|);
  }

  /** Domain undoes New whenever neither part holds a ':'. */
  lemma DomainOfNew(username: string, domain: string)
    requires ':' !in username && ':' !in domain
    ensures Domain(New(username, domain)) == Some(domain)
  {
    var id := New(username, domain);
    assert id[..|username| + 1] == "@" + username;
    assert ':' !in id[..|username| + 1];
    IndexOfAt(id, ':', |username| + 1);
    assert id[|username| + 2..] == domain;
  }

  /**
   * A server name that carries a port ("host:8448") loses it: the domain of
   * the id is only the host.
   */
  lemma DomainDropsPort(username: string, host: string, port: string)
    requires ':' !in username && ':' !in host
    ensures Domain(New(username, host + ":" + port)) == Some(host)
  {
    var id := New(username, host + ":" + port);
    assert id[..|username| + 1] == "@" + username;
    assert ':' !in id[..|username| + 1];
    IndexOfAt(id, ':', |username| + 1);
    var rest := id[|username| + 2..];
    assert rest == host + ":" + port;
    assert rest[..|host|] == host;
    BeforeFirstAt(rest, ':', |host|);
  }

  lemma IndexOfAt(s: string, c: char, i: nat)
    requires i < |s| && s[i] == c && c !in s[..i]
    ensures IndexOf(s, c) == Some(i)
  {
  }

  lemma BeforeFirstAt(s: string, c: char, i: nat)
    requires i < |s| && s[i] == c && c !in s[..i]
    ensures BeforeFirst(s, c) == s[..i]
  {
    IndexOfAt(s, c, i);
  }
}
