/** Proxy lines (control/tasks.py) and the repair of legacy P3 lines (control/proxy_jobs.py).

    Text is a sequence of UTF-8 bytes, a byte being a character below 256.  Percent-encoding
    follows section 2.1 of RFC 3986. */
module P3Url {
  import opened Wrappers

  predicate Bytes(s: string) {
    forall i :: 0 <= i < |s| ==> s[i] as int < 256
  }

  // ------------------------------------------------------------------ percent-encoding

  predicate Unreserved(c: char) {
    'A' <= c <= 'Z' || 'a' <= c <= 'z' || '0' <= c <= '9' || c == '-' || c == '_' || c == '.' || c == '~'
  }

  function HexDigit(n: nat): char
    requires n < 16
  {
    if n < 10 then ('0' as int + n) as char else ('A' as int + n - 10) as char
  }

  function HexValue(c: char): Option<nat> {
    if '0' <= c <= '9' then Some(c as int - '0' as int)
    else if 'A' <= c <= 'F' then Some(c as int - 'A' as int + 10)
    else if 'a' <= c <= 'f' then Some(c as int - 'a' as int + 10)
    else None
  }

  function QuoteByte(c: char): string
    requires c as int < 256
  {
    if Unreserved(c) then [c] else ['%', HexDigit(c as int / 16), HexDigit(c as int % 16)]
  }

  /** `urllib.parse.quote(s, safe="")`. */
  function Quote(s: string): (q: string)
    requires Bytes(s)
    ensures Bytes(q)
  {
    if s == "" then "" else QuoteByte(s[0]) + Quote(s[1..])
  }

  predicate Escape(s: string) {
    |s| >= 3 && s[0] == '%' && HexValue(s[1]).Some? && HexValue(s[2]).Some?
  }

  /** `urllib.parse.unquote(s)`: a percent sign without two hexadecimal digits stands for itself. */
  function Unquote(s: string): (r: string)
    ensures Bytes(s) ==> Bytes(r)
  {
    if s == "" then ""
    else if Escape(s) then [(HexValue(s[1]).value * 16 + HexValue(s[2]).value) as char] + Unquote(s[3..])
    else [s[0]] + Unquote(s[1..])
  }

  predicate Encoded(s: string) {
    forall i :: 0 <= i < |s| ==> Unreserved(s[i]) || s[i] == '%'
  }

  // ------------------------------------------------------------------ numbers

  function Digits(n: nat): (s: string)
    ensures s != "" && forall i :: 0 <= i < |s| ==> '0' <= s[i] <= '9'
  {
    var last := [('0' as int + n % 10) as char];
    if n < 10 then last else Digits(n / 10) + last
  }

  function Number(s: string): Option<nat> {
    if s == "" then None
    else if !('0' <= s[|s| - 1] <= '9') then None
    else
      var last := s[|s| - 1] as int - '0' as int;
      if |s| == 1 then Some(last)
      else
        match Number(s[..|s| - 1])
        case None => None
        case Some(n) => Some(n * 10 + last)
  }

  // ------------------------------------------------------------------ URLs

  /** First position of a character of `cs`, or the length. */
  function Find(s: string, cs: string): (k: nat)
    ensures k <= |s| && (k < |s| ==> s[k] in cs) && forall i :: 0 <= i < k ==> s[i] !in cs
  {
    if s == "" || s[0] in cs then 0 else 1 + Find(s[1..], cs)
  }

  /** One past the last position of `c`, or zero. */
  function AfterLast(s: string, c: char): (k: nat)
    ensures k <= |s| && (k > 0 ==> s[k - 1] == c) && forall i :: k <= i < |s| ==> s[i] != c
  {
    if s == "" then 0 else if s[|s| - 1] == c then |s| else AfterLast(s[..|s| - 1], c)
  }

  function Lower(s: string): string {
    seq(|s|, i requires 0 <= i < |s| => if 'A' <= s[i] <= 'Z' then (s[i] as int + 32) as char else s[i])
  }

  predicate SchemeChar(c: char) {
    'A' <= c <= 'Z' || 'a' <= c <= 'z' || '0' <= c <= '9' || c == '+' || c == '-' || c == '.'
  }

  predicate Scheme(s: string) {
    s != "" && ('A' <= s[0] <= 'Z' || 'a' <= s[0] <= 'z') && forall i :: 0 <= i < |s| ==> SchemeChar(s[i])
  }

  /** What `urlsplit` and its properties give for a line with user information.  `port` is the
      text after the colon, empty for none; `tail` is the path and what follows it. */
  datatype Parts = Parts(scheme: string, user: string, password: string, host: string, port: string, tail: string)

  predicate BytesParts(x: Parts) {
    Bytes(x.scheme) && Bytes(x.user) && Bytes(x.password) && Bytes(x.host) && Bytes(x.port) && Bytes(x.tail)
  }

  /** `None` when the line has no user information. */
  function Split(line: string): Option<Parts> {
    var c := Find(line, ":");
    var hasScheme := c < |line| && Scheme(line[..c]);
    var scheme := if hasScheme then Lower(line[..c]) else "";
    var rest := if hasScheme then line[c + 1..] else line;
    if |rest| < 2 || rest[..2] != "//" then None
    else SplitAuthority(scheme, rest[2..])
  }

  function SplitAuthority(scheme: string, body: string): Option<Parts> {
    var e := Find(body, "/?#");
    SplitNetloc(scheme, body[..e], body[e..])
  }

  function SplitNetloc(scheme: string, netloc: string, tail: string): Option<Parts> {
    var a := AfterLast(netloc, '@');
    if a == 0 then None
    else
      Some(Parts(
        scheme,
        Unquote(Before(netloc[..a - 1])),
        Unquote(After(netloc[..a - 1])),
        Lower(Before(netloc[a..])),
        After(netloc[a..]),
        tail))
  }

  /** The parts around the first colon. */
  function Before(s: string): string {
    s[..Find(s, ":")]
  }

  function After(s: string): string {
    var k := Find(s, ":");
    if k < |s| then s[k + 1..] else ""
  }

  /** The line rebuilt with another user name; `None` stands for the error of a bad port. */
  function Rebuild(x: Parts, user: string): Option<string>
    requires Bytes(user) && Bytes(x.password)
  {
    var prefix := if x.scheme == "" then "//" else x.scheme + "://";
    var auth := Quote(user) + ":" + Quote(x.password) + "@";
    if x.port == "" then Some(prefix + auth + x.host + x.tail)
    else
      match Number(x.port)
      case None => None
      case Some(n) => if n > 65535 then None else Some(prefix + auth + x.host + (if n == 0 then "" else ":" + Digits(n)) + x.tail)
  }

  /** `_proxy_url`. */
  function ProxyUrl(protocol: string, host: string, port: nat, user: string, password: string): string
    requires Bytes(user) && Bytes(password)
  {
    protocol + "://" + Quote(user) + ":" + Quote(password) + "@" + host + ":" + Digits(port)
  }

  predicate PlainHost(host: string) {
    host != "" && forall i :: 0 <= i < |host| ==> 'a' <= host[i] <= 'z' || '0' <= host[i] <= '9' || host[i] == '.' || host[i] == '-'
  }

  predicate Protocol(s: string) {
    Scheme(s) && Lower(s) == s
  }
}
