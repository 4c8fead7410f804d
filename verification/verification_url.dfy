/**
 * The verification link `sendVerificationMail` mails out: what
 * `url.format` builds from protocol `http`, hostname `DOMAIN || 'localhost'`,
 * port `DOMAIN ? undefined : PORT`, the verify path and the query
 * `{ token }`, and a parser that reads the authority and the token back.
 */
module VerificationUrl {
  import opened Wrappers
  import QueryString

  /** The process configuration the link depends on: `DOMAIN` and `PORT`. */
  datatype Env = Env(domain: Option<string>, port: Option<string>)

  /** JavaScript truthiness of an environment variable: set and non-empty. */
  predicate Truthy(v: Option<string>) {
    v.Some? && v.value != ""
  }

  const Scheme: string := "http://"
  const VerifyPath: string := "/api/v1/auth/verify"
  const TokenKey: string := "token="

  /** The `hostname` option: `DOMAIN` when set, otherwise `localhost`. */
  function Hostname(env: Env): string {
    if Truthy(env.domain) then env.domain.value else "localhost"
  }

  /** The `port` option: left undefined whenever `DOMAIN` is set, otherwise `PORT`. */
  function Port(env: Env): Option<string> {
    if Truthy(env.domain) then None else env.port
  }

  /**
   * The host `url.format` writes after `//`: the hostname, followed by
   * `:port` only when the port option is truthy.
   */
  function Authority(env: Env): (a: string)
    ensures Truthy(env.domain) ==> a == env.domain.value
    ensures !Truthy(env.domain) && Truthy(env.port) ==> a == "localhost:" + env.port.value
    ensures !Truthy(env.domain) && !Truthy(env.port) ==> a == "localhost"
  {
    Hostname(env) + (if Truthy(Port(env)) then ":" + Port(env).value else "")
  }

  /**
   * What `url.format` assembles for the link: `http:` gets `//` because it
   * is a slashed protocol with a non-empty host, then the pathname, then
   * `?` and the stringified query `token=<escaped token>`.
   */
  function Link(host: string, token: string): string {
    "http:" + "//" + host + VerifyPath + "?" + TokenKey + QueryString.Escape(token)
  }

  /** The link mailed for `token` under the configuration `env`. */
  function Build(env: Env, token: string): (url: string)
    ensures Parse(url) == Some((Authority(env), token))
  {
    ParseLink(Authority(env), token);
    Link(Authority(env), token)
  }

  /** `s` without the leading `p`, if it starts with `p`. */
  function StripPrefix(p: string, s: string): Option<string> {
    if |p| <= |s| && s[..|p|] == p then Some(s[|p|..]) else None
  }

  /** `s` without the trailing `p`, if it ends with `p`. */
  function StripSuffix(s: string, p: string): Option<string> {
    if |p| <= |s| && s[|s| - |p|..] == p then Some(s[..|s| - |p|]) else None
  }

  /** The position of the last occurrence of `c` in `s`. */
  function LastIndexOf(s: string, c: char): (r: Option<nat>)
    ensures r.Some? ==> r.value < |s| && s[r.value] == c
    ensures r.Some? ==> forall j :: r.value < j < |s| ==> s[j] != c
    ensures r.None? ==> forall j :: 0 <= j < |s| ==> s[j] != c
  {
    if s == [] then None
    else if s[|s| - 1] == c then Some(|s| - 1)
    else LastIndexOf(s[..|s| - 1], c)
  }

  /** `s` split around its last `c`. */
  function SplitLast(s: string, c: char): Option<(string, string)> {
    match LastIndexOf(s, c)
    case None => None
    case Some(i) => Some((s[..i], s[i + 1..]))
  }

  /**
   * Reads a verification link: the scheme, then an authority, then the
   * verify path, then `?token=` and the escaped token. The query starts at
   * the last `?`, since an escaped token never contains one.
   */
  function Parse(url: string): Option<(string, string)> {
    var rest :- StripPrefix(Scheme, url);
    var parts :- SplitLast(rest, '?');
    var authority :- StripSuffix(parts.0, VerifyPath);
    var escaped :- StripPrefix(TokenKey, parts.1);
    var token :- QueryString.Unescape(escaped);
    Some((authority, token))
  }

  lemma StripPrefixConcat(p: string, t: string)
    ensures StripPrefix(p, p + t) == Some(t)
  {
    assert (p + t)[..|p|] == p;
  }

  lemma StripSuffixConcat(t: string, p: string)
    ensures StripSuffix(t + p, p) == Some(t)
  {
    assert (t + p)[|t + p| - |p|..] == p;
  }

  lemma SplitLastConcat(a: string, c: char, b: string)
    requires forall j :: 0 <= j < |b| ==> b[j] != c
    ensures SplitLast(a + [c] + b, c) == Some((a, b))
  {
    var s := a + [c] + b;
    assert s[|a|] == c;
    assert forall j :: |a| < j < |s| ==> s[j] == b[j - |a| - 1];
    assert LastIndexOf(s, c) == Some(|a|);
    assert s[..|a|] == a;
    assert s[|a| + 1..] == b;
  }

  /** The link's query carries the token, and its target the authority, unchanged. */
  lemma ParseLink(host: string, token: string)
    ensures Parse(Link(host, token)) == Some((host, token))
  {
    var escaped := QueryString.Escape(token);
    var target := host + VerifyPath;
    var query := TokenKey + escaped;
    var rest := target + ['?'] + query;
    assert Link(host, token) == Scheme + rest;
    StripPrefixConcat(Scheme, rest);
    assert !QueryString.Safe('?');
    assert forall j :: 0 <= j < |query| ==> query[j] != '?' by {
      forall j | 0 <= j < |query|
        ensures query[j] != '?'
      {
        if j >= |TokenKey| {
          assert query[j] == escaped[j - |TokenKey|];
        }
      }
    }
    SplitLastConcat(target, '?', query);
    StripSuffixConcat(host, VerifyPath);
    StripPrefixConcat(TokenKey, escaped);
    QueryString.UnescapeEscape(token);
  }
}
