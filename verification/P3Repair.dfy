/** The repair of legacy P3 lines at issue time (control/proxy_jobs.py) against the lines
    `_generate` prints today (control/tasks.py). */
module P3Repair {
  import opened Wrappers
  import opened P3Url
  import opened P3UrlRoundTrip
  import Routing = P3Routing

  // ------------------------------------------------------------------ the marker search

  predicate At(s: string, w: string, k: nat) {
    k + |w| <= |s| && s[k..k + |w|] == w
  }

  ghost predicate Has(s: string, w: string) {
    exists k: nat :: At(s, w, k)
  }

  predicate EndsAt(s: string, ends: seq<string>, j: nat) {
    exists e :: e in ends && At(s, e, j)
  }

  /** Shortest end: the first of the `ends` at or after `j`, on the same line. */
  function MatchEnd(s: string, ends: seq<string>, j: nat): (r: Option<nat>)
    requires j <= |s|
    ensures r.Some? ==> j <= r.value <= |s| && EndsAt(s, ends, r.value)
    decreases |s| - j
  {
    if EndsAt(s, ends, j) then Some(j)
    else if j < |s| && s[j] != '\n' then MatchEnd(s, ends, j + 1)
    else None
  }

  predicate Starts(s: string, start: string, i: nat) {
    |start| <= i && At(s, start, i - |start|)
  }

  /** Leftmost match of what lies between `start` and one of the `ends`. */
  function Match(s: string, start: string, ends: seq<string>, i: nat): (r: Option<(nat, nat)>)
    requires i <= |s|
    ensures r.Some? ==> i <= r.value.0 <= r.value.1 <= |s| && Starts(s, start, r.value.0) && MatchEnd(s, ends, r.value.0) == Some(r.value.1)
    ensures r.Some? ==> forall k | i <= k < r.value.0 :: Starts(s, start, k) ==> MatchEnd(s, ends, k).None?
    decreases |s| - i
  {
    if Starts(s, start, i) && MatchEnd(s, ends, i).Some? then Some((i, MatchEnd(s, ends, i).value))
    else if i < |s| then Match(s, start, ends, i + 1)
    else None
  }

  /** One substitution of `(?<=start).*?(?=ends)`. */
  function Sub(s: string, start: string, ends: seq<string>, text: string): Option<string> {
    match Match(s, start, ends, 0)
    case None => None
    case Some((i, j)) => Some(s[..i] + text + s[j..])
  }

  // ------------------------------------------------------------------ the repairs

  /** A marker word of a P3 user name, such as `-city-`. */
  function Marker(w: string): string {
    "-" + w + "-"
  }

  function Markers(ws: seq<string>): seq<string> {
    seq(|ws|, i requires 0 <= i < |ws| => Marker(ws[i]))
  }

  lemma SubIsBytes(s: string, start: string, ends: seq<string>, text: string)
    requires Bytes(s) && Bytes(text)
    ensures Sub(s, start, ends, text).Some? ==> Bytes(Sub(s, start, ends, text).value)
  {
    hide Match;
  }

  /** What both repairs do with a line; `None` stands for the error of a bad port. */
  function RepairUser(line: string, start: string, ends: seq<string>, text: string): (r: Option<string>)
    requires Bytes(line) && Bytes(text)
    ensures r.Some? ==> Bytes(r.value)
  {
    SplitIsBytes(line);
    match Split(line)
    case None => Some(line)
    case Some(x) =>
      SubIsBytes(x.user, start, ends, text);
      match Sub(x.user, start, ends, text)
      case None => Some(line)
      case Some(user) =>
        if user == x.user || x.host == "" then Some(line)
        else
          RebuiltIsBytes(x, user);
          Rebuild(x, user)
  }

  /** `_repair_legacy_p3_city_proxy`. */
  function RepairCity(line: string, city: string): (r: Option<string>)
    requires Bytes(line) && Bytes(Routing.Strip(city))
    ensures r.Some? ==> Bytes(r.value)
  {
    var requested := Routing.Strip(city);
    if requested == "" then Some(line) else RepairUser(line, Marker("city"), Markers(["session"]), requested)
  }

  /** `_repair_legacy_p3_region_proxy`. */
  function RepairRegion(catalog: Routing.Catalog, line: string, country: string, region: string): (r: Option<string>)
    requires Bytes(line) && Bytes(Routing.Selector(catalog, country, region))
    ensures r.Some? ==> Bytes(r.value)
  {
    var selector := Routing.Selector(catalog, country, region);
    if selector == "" || selector == Routing.Normal(region) then Some(line)
    else RepairUser(line, Marker("subdivision"), Markers(["city", "session"]), selector)
  }

  /** The repairs of `reserve_pool_proxies` for a P3 scope: region first, then city. */
  function Repair(catalog: Routing.Catalog, line: string, country: string, region: string, city: string): (r: Option<string>)
    requires Bytes(line) && Bytes(Routing.Selector(catalog, country, region)) && Bytes(Routing.Strip(city))
  {
    var first := if region != "" then RepairRegion(catalog, line, country, region) else Some(line);
    if first.None? || city == "" then first else RepairCity(first.value, city)
  }

  // ------------------------------------------------------------------ words between hyphens

  lemma NotBefore(h: string, t: string, w: string, m: nat)
    requires !Has(h, w) && '-' !in w && w != "" && m <= |h|
    ensures !At(h + "-" + t, w, m)
  {
    var s := h + "-" + t;
    assert !At(h, w, m);
    assert m + |w| <= |h| ==> h[m..m + |w|] == s[m..m + |w|];
    assert |h| < m + |w| <= |s| ==> s[m..m + |w|][|h| - m] == '-';
  }

  lemma HasNot(a: string, b: string, w: string)
    requires !Has(a, w) && !Has(b, w) && '-' !in w && w != ""
    ensures !Has(a + "-" + b, w)
  {
    var s := a + "-" + b;
    forall k: nat ensures !At(s, w, k) {
      if k <= |a| {
        NotBefore(a, b, w, k);
      } else {
        assert !At(b, w, k - |a| - 1);
        assert k + |w| <= |s| ==> b[k - |a| - 1..k - |a| - 1 + |w|] == s[k..k + |w|];
      }
    }
  }

  lemma LacksLetter(s: string, w: string, i: nat)
    requires i < |w| && w[i] !in s
    ensures !Has(s, w)
  {
    forall k: nat ensures !At(s, w, k) {
      assert k + |w| <= |s| ==> s[k..k + |w|][i] == s[k + i];
    }
  }

  lemma MarkerHasWord(s: string, w: string, k: nat)
    requires At(s, Marker(w), k)
    ensures At(s, w, k + 1) && s[k] == '-'
  {
    assert Marker(w)[1..1 + |w|] == w;
    assert s[k..k + |w| + 2][1..1 + |w|] == s[k + 1..k + 1 + |w|];
    assert s[k..k + |w| + 2][0] == s[k];
  }

  /** A word that can be searched for: no hyphen, no line break, not empty. */
  predicate Word(w: string) {
    w != "" && '-' !in w && '\n' !in w
  }

  /** Text on one line without any of the words. */
  ghost predicate Plain(s: string, ws: seq<string>) {
    '\n' !in s && forall i | 0 <= i < |ws| :: !Has(s, ws[i])
  }

  /** No end lies inside plain text that an end follows. */
  lemma NoEndInside(pre: string, mid: string, rest: string, ws: seq<string>, j: nat)
    requires (forall i | 0 <= i < |ws| :: Word(ws[i])) && Plain(mid, ws) && rest != "" && rest[0] == '-'
    requires |pre| <= j < |pre| + |mid|
    ensures !EndsAt(pre + mid + rest, Markers(ws), j)
  {
    var s := pre + mid + rest;
    if EndsAt(s, Markers(ws), j) {
      var e :| e in Markers(ws) && At(s, e, j);
      var i :| 0 <= i < |ws| && Markers(ws)[i] == e;
      MarkerHasWord(s, ws[i], j);
      var part := mid + "-" + rest[1..];
      assert part == s[|pre|..];
      assert part[j + 1 - |pre|..j + 1 - |pre| + |ws[i]|] == s[j + 1..j + 1 + |ws[i]|];
      assert At(part, ws[i], j + 1 - |pre|);
      NotBefore(mid, rest[1..], ws[i], j + 1 - |pre|);
    }
  }

  lemma {:induction false} EndFollows(pre: string, mid: string, rest: string, ws: seq<string>, j: nat)
    requires (forall i | 0 <= i < |ws| :: Word(ws[i])) && Plain(mid, ws) && EndsAt(rest, Markers(ws), 0)
    requires |pre| <= j <= |pre| + |mid|
    ensures MatchEnd(pre + mid + rest, Markers(ws), j) == Some(|pre| + |mid|)
    decreases |pre| + |mid| - j
  {
    var s := pre + mid + rest;
    var e :| e in Markers(ws) && At(rest, e, 0);
    var i :| 0 <= i < |ws| && Markers(ws)[i] == e;
    MarkerHasWord(rest, ws[i], 0);
    if j == |pre| + |mid| {
      assert s[j..j + |e|] == rest[..|e|];
      assert At(s, e, j);
    } else {
      NoEndInside(pre, mid, rest, ws, j);
      assert s[j] == mid[j - |pre|];
      EndFollows(pre, mid, rest, ws, j + 1);
    }
  }

  lemma NoEarlierStart(head: string, w: string, tail: string, i: nat)
    requires Word(w) && !Has(head, w) && i < |head| + |Marker(w)|
    ensures !Starts(head + Marker(w) + tail, Marker(w), i)
  {
    var s := head + Marker(w) + tail;
    assert s == head + "-" + (w + "-" + tail);
    if Starts(s, Marker(w), i) {
      MarkerHasWord(s, w, i - |Marker(w)|);
      NotBefore(head, w + "-" + tail, w, i - |Marker(w)| + 1);
    }
  }

  lemma StartsHere(head: string, start: string, tail: string)
    ensures Starts(head + start + tail, start, |head| + |start|)
  {
    assert (head + start + tail)[|head|..|head| + |start|] == start;
  }

  /** The first match in `head`, marker, `mid`, `rest` is `mid`. */
  lemma SubBetween(head: string, w: string, mid: string, rest: string, ws: seq<string>, text: string)
    requires Word(w) && (forall i | 0 <= i < |ws| :: Word(ws[i]))
    requires !Has(head, w) && Plain(mid, ws) && EndsAt(rest, Markers(ws), 0)
    ensures Sub(head + Marker(w) + mid + rest, Marker(w), Markers(ws), text) == Some(head + Marker(w) + text + rest)
  {
    var pre := head + Marker(w);
    var s := pre + mid + rest;
    assert s == head + Marker(w) + (mid + rest);
    EndFollows(pre, mid, rest, ws, |pre|);
    StartsHere(head, Marker(w), mid + rest);
    forall i: nat | i < |pre| ensures !Starts(s, Marker(w), i) {
      NoEarlierStart(head, w, mid + rest, i);
    }
    hide Marker, Markers, Starts, EndsAt, Has, Plain, Word, MatchEnd;
    FirstMatch(s, Marker(w), Markers(ws), 0, |pre|);
    assert s[..|pre|] == pre && s[|pre| + |mid|..] == rest;
  }

  lemma {:induction false} FirstMatch(s: string, start: string, ends: seq<string>, i: nat, at: nat)
    requires i <= at <= |s| && Starts(s, start, at) && MatchEnd(s, ends, at).Some?
    requires forall k | i <= k < at :: Starts(s, start, k) ==> MatchEnd(s, ends, k).None?
    ensures Match(s, start, ends, i) == Some((at, MatchEnd(s, ends, at).value))
    decreases at - i
  {
    if i < at {
      FirstMatch(s, start, ends, i + 1, at);
    }
  }

  // ------------------------------------------------------------------ printed lines

  lemma RebuildsPrinted(protocol: string, host: string, port: nat, user: string, password: string, other: string)
    requires 1 <= port <= 65535 && Bytes(user) && Bytes(password) && protocol != ""
    ensures Rebuild(Parts(protocol, other, password, host, Digits(port), ""), user) ==
              Some(ProxyUrl(protocol, host, port, user, password))
  {
    NumberOfDigits(port);
    hide Digits, Number, Quote;
    var a := protocol + "://";
    var auth := Quote(user) + ":" + Quote(password) + "@";
    assert a + auth == a + Quote(user) + ":" + Quote(password) + "@";
    assert a + auth + host + (":" + Digits(port)) + "" == a + auth + host + ":" + Digits(port);
  }

  function Repaired(user: string, start: string, ends: seq<string>, text: string): string {
    var sub := Sub(user, start, ends, text);
    if sub.Some? then sub.value else user
  }

  /** On a printed line a repair rewrites the user name and nothing else. */
  lemma RepairsPrinted(protocol: string, host: string, port: nat, user: string, password: string,
                       start: string, ends: seq<string>, text: string)
    requires Protocol(protocol) && PlainHost(host) && 1 <= port <= 65535 && Bytes(user) && Bytes(password) && Bytes(text)
    requires Bytes(ProxyUrl(protocol, host, port, user, password))
    ensures Bytes(Repaired(user, start, ends, text))
    ensures RepairUser(ProxyUrl(protocol, host, port, user, password), start, ends, text) ==
              Some(ProxyUrl(protocol, host, port, Repaired(user, start, ends, text), password))
  {
    ParsePrinted(protocol, host, port, user, password);
    SubIsBytes(user, start, ends, text);
    hide Split, Sub, Digits, Number, ProxyUrl, Rebuild;
    if Sub(user, start, ends, text).Some? {
      RebuildsPrinted(protocol, host, port, Repaired(user, start, ends, text), password, user);
    }
  }
}
