/** Round trips of the proxy line printer and parser: percent-encoding, numbers, and the parts
    of a URL. */
module P3UrlRoundTrip {
  import opened Wrappers
  import opened P3Url

  lemma {:induction false} UnquoteQuote(s: string)
    requires Bytes(s)
    ensures Unquote(Quote(s)) == s
  {
    if s != "" {
      UnquoteQuote(s[1..]);
      var q := Quote(s);
      HexRoundTrip(s[0] as int);
      hide HexDigit, HexValue, Bytes;
      if Unreserved(s[0]) {
        assert q[1..] == Quote(s[1..]);
      } else {
        assert q[3..] == Quote(s[1..]);
      }
    }
  }

  lemma HexRoundTrip(n: nat)
    requires n < 256
    ensures HexValue(HexDigit(n / 16)) == Some(n / 16) && HexValue(HexDigit(n % 16)) == Some(n % 16)
    ensures n / 16 * 16 + n % 16 == n
  {
  }

  lemma {:induction false} QuoteIsEncoded(s: string)
    requires Bytes(s)
    ensures Encoded(Quote(s))
  {
    if s != "" {
      QuoteIsEncoded(s[1..]);
    }
  }

  lemma {:induction false} NumberOfDigits(n: nat)
    ensures Number(Digits(n)) == Some(n)
  {
    if n >= 10 {
      NumberOfDigits(n / 10);
      assert Digits(n)[..|Digits(n)| - 1] == Digits(n / 10);
    }
  }

  lemma CutIsBytes(s: string, i: nat)
    requires Bytes(s) && i <= |s|
    ensures Bytes(s[..i]) && Bytes(s[i..])
  {
  }

  lemma LowerIsBytes(s: string)
    requires Bytes(s)
    ensures Bytes(Lower(s))
  {
  }

  lemma NetlocIsBytes(scheme: string, netloc: string, tail: string)
    requires Bytes(scheme) && Bytes(netloc) && Bytes(tail) && SplitNetloc(scheme, netloc, tail).Some?
    ensures BytesParts(SplitNetloc(scheme, netloc, tail).value)
  {
    hide Bytes, AfterLast, Unquote, Lower, Before, After;
    var a := AfterLast(netloc, '@');
    CutIsBytes(netloc, a - 1);
    CutIsBytes(netloc, a);
    AroundColonIsBytes(netloc[..a - 1]);
    AroundColonIsBytes(netloc[a..]);
    LowerIsBytes(Before(netloc[a..]));
  }

  lemma AroundColonIsBytes(s: string)
    requires Bytes(s)
    ensures Bytes(Before(s)) && Bytes(After(s))
  {
    hide Bytes, Find;
    var k := Find(s, ":");
    CutIsBytes(s, k);
    if k < |s| {
      CutIsBytes(s, k + 1);
    }
    EmptyIsBytes();
  }

  lemma EmptyIsBytes()
    ensures Bytes("")
  {
  }

  /** The parts of a line of bytes are bytes. */
  lemma SplitIsBytes(line: string)
    requires Bytes(line)
    ensures Split(line).Some? ==> BytesParts(Split(line).value)
  {
    hide Bytes, BytesParts, Find, SplitAuthority, Scheme, Lower;
    if Split(line).Some? {
      var c := Find(line, ":");
      var hasScheme := c < |line| && Scheme(line[..c]);
      var scheme, rest := if hasScheme then Lower(line[..c]) else "", if hasScheme then line[c + 1..] else line;
      CutIsBytes(line, c);
      LowerIsBytes(line[..c]);
      EmptyIsBytes();
      if hasScheme {
        CutIsBytes(line, c + 1);
      }
      CutIsBytes(rest, 2);
      AuthorityIsBytes(scheme, rest[2..]);
    }
  }

  lemma AuthorityIsBytes(scheme: string, body: string)
    requires Bytes(scheme) && Bytes(body)
    ensures SplitAuthority(scheme, body).Some? ==> BytesParts(SplitAuthority(scheme, body).value)
  {
    hide Bytes, BytesParts, Find, SplitNetloc;
    var e := Find(body, "/?#");
    CutIsBytes(body, e);
    if SplitNetloc(scheme, body[..e], body[e..]).Some? {
      NetlocIsBytes(scheme, body[..e], body[e..]);
    }
  }

  lemma JoinIsBytes(a: string, b: string)
    requires Bytes(a) && Bytes(b)
    ensures Bytes(a + b)
  {
  }

  lemma DigitsAreBytes(n: nat)
    ensures Bytes(Digits(n)) && Bytes("") && Bytes("//") && Bytes("://") && Bytes(":") && Bytes("@")
  {
  }

  lemma RebuiltIsBytes(x: Parts, user: string)
    requires Bytes(user) && BytesParts(x)
    ensures Rebuild(x, user).Some? ==> Bytes(Rebuild(x, user).value)
  {
    hide Bytes, Digits, Quote;
    var prefix := if x.scheme == "" then "//" else x.scheme + "://";
    var auth := Quote(user) + ":" + Quote(x.password) + "@";
    DigitsAreBytes(0);
    JoinIsBytes(x.scheme, "://");
    JoinIsBytes(Quote(user), ":");
    JoinIsBytes(Quote(user) + ":", Quote(x.password));
    JoinIsBytes(Quote(user) + ":" + Quote(x.password), "@");
    JoinIsBytes(prefix, auth);
    JoinIsBytes(prefix + auth, x.host);
    JoinIsBytes(prefix + auth + x.host, x.tail);
    if x.port != "" && Number(x.port).Some? {
      var n := Number(x.port).value;
      var port := if n == 0 then "" else ":" + Digits(n);
      DigitsAreBytes(n);
      JoinIsBytes(":", Digits(n));
      JoinIsBytes(prefix + auth + x.host, port);
      JoinIsBytes(prefix + auth + x.host + port, x.tail);
    }
  }

  lemma FindAt(s: string, cs: string, k: nat)
    requires k <= |s| && (k < |s| ==> s[k] in cs) && forall i :: 0 <= i < k ==> s[i] !in cs
    ensures Find(s, cs) == k
  {
    assert !(Find(s, cs) < k) && !(k < Find(s, cs));
  }

  lemma AfterLastAt(s: string, c: char, k: nat)
    requires 0 < k <= |s| && s[k - 1] == c && forall i :: k <= i < |s| ==> s[i] != c
    ensures AfterLast(s, c) == k
  {
    assert !(AfterLast(s, c) < k) && !(k < AfterLast(s, c));
  }

  lemma AroundColon(a: string, b: string)
    requires ':' !in a
    ensures Before(a + ":" + b) == a && After(a + ":" + b) == b
    ensures Before(a) == a && After(a) == ""
  {
    FindAt(a + ":" + b, ":", |a|);
    FindAt(a, ":", |a|);
  }

  predicate Free(s: string, cs: string) {
    forall i :: 0 <= i < |s| ==> s[i] !in cs
  }

  lemma FindIn(a: string, b: string, cs: string)
    requires Free(a, cs) && (b != "" ==> b[0] in cs)
    ensures Find(a + b, cs) == |a| && (a + b)[..|a|] == a && (a + b)[|a|..] == b
  {
    FindAt(a + b, cs, |a|);
  }

  lemma LastAtJoined(a: string, b: string)
    requires Free(b, "@")
    ensures AfterLast(a + "@" + b, '@') == |a| + 1
    ensures (a + "@" + b)[..|a|] == a && (a + "@" + b)[|a| + 1..] == b
  {
    AfterLastAt(a + "@" + b, '@', |a| + 1);
  }

  lemma EncodedIsFree(s: string)
    requires Encoded(s)
    ensures ':' !in s && Free(s, ":/?#@")
  {
  }

  lemma NetlocOf(scheme: string, userinfo: string, address: string, tail: string)
    requires Free(address, "@")
    ensures SplitNetloc(scheme, userinfo + "@" + address, tail) ==
              Some(Parts(scheme, Unquote(Before(userinfo)), Unquote(After(userinfo)), Lower(Before(address)), After(address), tail))
  {
    LastAtJoined(userinfo, address);
    hide Unquote, Lower, Before, After, AfterLast, Free;
  }

  lemma NetlocJoined(scheme: string, user: string, secret: string, address: string, tail: string)
    requires Encoded(user) && Free(address, "@")
    ensures SplitNetloc(scheme, user + ":" + secret + "@" + address, tail) ==
              Some(Parts(scheme, Unquote(user), Unquote(secret), Lower(Before(address)), After(address), tail))
  {
    EncodedIsFree(user);
    AroundColon(user, secret);
    hide *;
    NetlocOf(scheme, user + ":" + secret, address, tail);
  }

  lemma AuthorityJoined(scheme: string, user: string, secret: string, address: string, tail: string)
    requires Encoded(user) && Encoded(secret) && Free(address, "/?#@") && (tail != "" ==> tail[0] in "/?#")
    ensures SplitAuthority(scheme, user + ":" + secret + "@" + address + tail) ==
              Some(Parts(scheme, Unquote(user), Unquote(secret), Lower(Before(address)), After(address), tail))
  {
    var netloc := user + ":" + secret + "@" + address;
    forall i | 0 <= i < |netloc| ensures netloc[i] !in "/?#" {
      if |netloc| - |address| <= i {
        assert netloc[i] == address[i - (|netloc| - |address|)];
      }
    }
    FindIn(netloc, tail, "/?#");
    NetlocJoined(scheme, user, secret, address, tail);
  }

  lemma SplitScheme(scheme: string, body: string)
    requires Protocol(scheme)
    ensures Split(scheme + "://" + body) == SplitAuthority(scheme, body)
  {
    var line := scheme + "://" + body;
    assert line == scheme + ("://" + body);
    FindIn(scheme, "://" + body, ":");
    var rest := line[|scheme| + 1..];
    assert rest == "//" + body && rest[..2] == "//" && rest[2..] == body;
  }

  lemma SplitBare(body: string)
    ensures Split("//" + body) == SplitAuthority("", body)
  {
    var line := "//" + body;
    var c := Find(line, ":");
    assert line[0] == '/';
    if 0 < c < |line| {
      assert line[..c][0] == '/';
    }
    assert line[..2] == "//" && line[2..] == body;
  }

  function Address(host: string, port: string): string {
    if port == "" then host else host + ":" + port
  }

  /** A well-formed line comes apart into what it was put together from. */
  lemma SplitJoined(scheme: string, user: string, secret: string, host: string, port: string, tail: string)
    requires Protocol(scheme) || scheme == ""
    requires Encoded(user) && Encoded(secret) && Free(host, ":/?#@") && Free(port, "/?#@") && (tail != "" ==> tail[0] in "/?#")
    ensures var line := (if scheme == "" then "//" else scheme + "://") + (user + ":" + secret + "@" + Address(host, port) + tail);
            Split(line) == Some(Parts(scheme, Unquote(user), Unquote(secret), Lower(host), port, tail))
  {
    var body := user + ":" + secret + "@" + Address(host, port) + tail;
    AroundColon(host, port);
    AuthorityJoined(scheme, user, secret, Address(host, port), tail);
    hide SplitAuthority;
    if scheme == "" {
      SplitBare(body);
    } else {
      SplitScheme(scheme, body);
      assert scheme + "://" + body == (scheme + "://") + body;
    }
  }

  lemma SameLine(protocol: string, user: string, secret: string, host: string, port: string)
    requires port != ""
    ensures protocol + "://" + user + ":" + secret + "@" + host + ":" + port ==
              (protocol + "://") + (user + ":" + secret + "@" + Address(host, port) + "")
  {
    var auth := user + ":" + secret + "@";
    assert auth + (host + ":" + port) + "" == auth + host + ":" + port;
    assert (protocol + "://") + (auth + host + ":" + port) == protocol + "://" + auth + host + ":" + port;
    assert protocol + "://" + auth == protocol + "://" + user + ":" + secret + "@";
  }

  lemma PlainIsFree(host: string, port: nat)
    requires PlainHost(host)
    ensures Lower(host) == host && Free(host, ":/?#@") && Free(Digits(port), "/?#@")
  {
  }

  /** Parsing a printed line recovers the user and the password, whatever they contain. */
  lemma ParsePrinted(protocol: string, host: string, port: nat, user: string, password: string)
    requires Protocol(protocol) && PlainHost(host) && Bytes(user) && Bytes(password)
    ensures Split(ProxyUrl(protocol, host, port, user, password)) == Some(Parts(protocol, user, password, host, Digits(port), ""))
  {
    UnquoteQuote(user);
    UnquoteQuote(password);
    QuoteIsEncoded(user);
    QuoteIsEncoded(password);
    PlainIsFree(host, port);
    SameLine(protocol, Quote(user), Quote(password), host, Digits(port));
    assert ProxyUrl(protocol, host, port, user, password) ==
             protocol + "://" + Quote(user) + ":" + Quote(password) + "@" + host + ":" + Digits(port);
    hide *;
    SplitJoined(protocol, Quote(user), Quote(password), host, Digits(port), "");
  }
}
