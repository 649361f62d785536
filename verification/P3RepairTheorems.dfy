/** The repaired legacy line is the line printed today. */
module P3RepairTheorems {
  import opened Wrappers
  import opened Sequences
  import opened P3Url
  import opened P3UrlRoundTrip
  import opened P3Repair
  import Routing = P3Routing

  // ------------------------------------------------------------------ the printer

  const HOST := "network.joinmassive.com"
  const PORT: nat := 65534

  function Segment(w: string, value: Option<string>): string {
    if value.Some? then Marker(w) + value.value else ""
  }

  function Head(account: string, country: string): string {
    account + Marker("country") + country
  }

  function Tail(session: string): string {
    Marker("session") + session
  }

  function UserName(account: string, country: string, selector: Option<string>, city: Option<string>, session: string): string {
    Head(account, country) + Segment("subdivision", selector) + Segment("city", city) + Tail(session)
  }

  /** The subdivision and the city that `_generate` prints for a location. */
  function TodaySelector(catalog: Routing.Catalog, country: string, region: string): Option<string> {
    if region != "" then Some(Routing.Selector(catalog, Routing.Upper(country), region)) else None
  }

  function TodayCity(city: string): Option<string> {
    if city != "" then Some(Routing.Strip(city)) else None
  }

  /** The user name of the P3 branch of `_generate`. */
  function TodayUser(catalog: Routing.Catalog, account: string, country: string, region: string, city: string, session: string): string {
    UserName(account, Routing.Upper(country), TodaySelector(catalog, country, region), TodayCity(city), session)
  }

  /** A P3 line with a given user name. */
  function Line(protocol: string, user: string, password: string): string
    requires Bytes(user) && Bytes(password)
  {
    ProxyUrl(protocol, HOST, PORT, user, password)
  }

  // ------------------------------------------------------------------ marker words

  const WORDS := ["city", "session", "subdivision"]

  /** One line of bytes without a marker word. */
  ghost predicate Clean(s: string) {
    Bytes(s) && Plain(s, WORDS)
  }

  lemma CountryIsClean()
    ensures !Has("country", "city") && !Has("country", "subdivision")
    ensures !Has("subdivision", "city")
  {
    LacksLetter("country", "city", 1);
    LacksLetter("country", "subdivision", 0);
    LacksLetter("subdivision", "city", 0);
  }

  lemma CleanWords(s: string)
    requires Clean(s)
    ensures '\n' !in s && !Has(s, "city") && !Has(s, "session") && !Has(s, "subdivision")
  {
    assert WORDS[0] == "city" && WORDS[1] == "session" && WORDS[2] == "subdivision";
  }

  lemma HeadIsFree(account: string, country: string, w: string)
    requires Clean(account) && Clean(country) && (w == "city" || w == "subdivision")
    ensures !Has(Head(account, country), w)
  {
    CountryIsClean();
    CleanWords(account);
    CleanWords(country);
    HasNot(account, "country", w);
    HasNot(account + "-" + "country", country, w);
    assert account + "-" + "country" + "-" + country == Head(account, country);
  }

  lemma HeadWithRegionIsFree(account: string, country: string, selector: Option<string>)
    requires Clean(account) && Clean(country) && (selector.Some? ==> Clean(selector.value))
    ensures !Has(Head(account, country) + Segment("subdivision", selector), "city")
  {
    var head := Head(account, country);
    HeadIsFree(account, country, "city");
    CountryIsClean();
    if selector.Some? {
      CleanWords(selector.value);
      HasNot(head, "subdivision", "city");
      HasNot(head + "-" + "subdivision", selector.value, "city");
      assert head + "-" + "subdivision" + "-" + selector.value == head + Segment("subdivision", selector);
    } else {
      assert head + "" == head;
    }
  }

  lemma EndsWithMarker(w: string, tail: string, ws: seq<string>)
    requires w in ws
    ensures EndsAt(Marker(w) + tail, Markers(ws), 0)
  {
    assert (Marker(w) + tail)[0..|Marker(w)|] == Marker(w);
    assert At(Marker(w) + tail, Marker(w), 0);
    var i :| 0 <= i < |ws| && ws[i] == w;
    assert Markers(ws)[i] == Marker(w);
  }

  /** The region repair replaces the subdivision segment. */
  lemma RegionRewrites(account: string, country: string, was: string, city: Option<string>, session: string, text: string)
    requires Clean(account) && Clean(country) && Clean(was)
    ensures Sub(UserName(account, country, Some(was), city, session), Marker("subdivision"), Markers(["city", "session"]), text) ==
              Some(UserName(account, country, Some(text), city, session))
  {
    hide Has, EndsAt, Sub, Head, Marker;
    var head, ws := Head(account, country), ["city", "session"];
    HeadIsFree(account, country, "subdivision");
    CleanWords(was);
    var rest := Segment("city", city) + Tail(session);
    if city.None? {
      assert rest == Marker("session") + session;
      EndsWithMarker("session", session, ws);
    } else {
      assert rest == Marker("city") + (city.value + Tail(session));
      EndsWithMarker("city", city.value + Tail(session), ws);
    }
    assert Word("subdivision") && Word("city") && Word("session") && Plain(was, ws);
    hide *;
    SubBetween(head, "subdivision", was, rest, ws, text);
    RegroupRegion(account, country, was, city, session);
    RegroupRegion(account, country, text, city, session);
  }

  lemma RegroupRegion(account: string, country: string, value: string, city: Option<string>, session: string)
    ensures Head(account, country) + Marker("subdivision") + value + (Segment("city", city) + Tail(session)) ==
              UserName(account, country, Some(value), city, session)
  {
    Regroup(Head(account, country), Marker("subdivision"), value, Segment("city", city), Tail(session));
  }

  lemma Regroup(a: string, b: string, c: string, d: string, e: string)
    ensures a + b + c + (d + e) == a + (b + c) + d + e
  {
  }

  /** The city repair replaces the city segment. */
  lemma CityRewrites(account: string, country: string, selector: Option<string>, was: string, session: string, text: string)
    requires Clean(account) && Clean(country) && (selector.Some? ==> Clean(selector.value)) && Clean(was)
    ensures Sub(UserName(account, country, selector, Some(was), session), Marker("city"), Markers(["session"]), text) ==
              Some(UserName(account, country, selector, Some(text), session))
  {
    var head, ws := Head(account, country) + Segment("subdivision", selector), ["session"];
    HeadWithRegionIsFree(account, country, selector);
    CleanWords(was);
    EndsWithMarker("session", session, ws);
    assert Word("city") && Word("session") && Plain(was, ws);
    hide Clean, Has, EndsAt, Sub, Word, Plain;
    SubBetween(head, "city", was, Tail(session), ws, text);
    RegroupCity(head, Marker("city"), was, Tail(session));
    RegroupCity(head, Marker("city"), text, Tail(session));
  }

  lemma RegroupCity(a: string, b: string, c: string, d: string)
    ensures a + b + c + d == a + (b + c) + d
  {
  }

  // ------------------------------------------------------------------ the repaired line

  /** A row printed for a location, with whatever subdivision and city text was used then. */
  datatype Row = Row(protocol: string, password: string, account: string, country: string, region: string, city: string,
                     wasSelector: string, wasCity: string, session: string)

  function LegacyUser(row: Row): string {
    UserName(row.account, Routing.Upper(row.country), if row.region != "" then Some(row.wasSelector) else None,
             if row.city != "" then Some(row.wasCity) else None, row.session)
  }

  /** Text is bytes, and account, location and segments hold no marker word. */
  ghost predicate CleanRow(catalog: Routing.Catalog, row: Row) {
    && Protocol(row.protocol) && Bytes(row.protocol) && Bytes(row.password) && Bytes(row.session)
    && Clean(row.account) && Clean(Routing.Upper(row.country)) && Clean(row.wasSelector) && Clean(row.wasCity)
    && Clean(Routing.Selector(catalog, row.country, row.region)) && Clean(Routing.Strip(row.city))
  }

  lemma UserIsBytes(account: string, country: string, selector: Option<string>, city: Option<string>, session: string)
    requires Bytes(account) && Bytes(country) && Bytes(session)
    requires (selector.Some? ==> Bytes(selector.value)) && (city.Some? ==> Bytes(city.value))
    ensures Bytes(UserName(account, country, selector, city, session))
  {
    assert Bytes(Segment("subdivision", selector)) && Bytes(Segment("city", city));
    hide Segment;
  }

  lemma LineIsBytes(protocol: string, user: string, password: string)
    requires Bytes(protocol) && Bytes(user) && Bytes(password)
    ensures Bytes(Line(protocol, user, password))
  {
    assert Bytes(HOST) && Bytes(Digits(PORT));
    hide Digits, Quote;
  }

  lemma SelectorIgnoresCase(catalog: Routing.Catalog, country: string, region: string)
    ensures Routing.Selector(catalog, Routing.Upper(country), region) == Routing.Selector(catalog, country, region)
  {
    Routing.StripUpper(country);
    assert Routing.Upper(Routing.Upper(Routing.Strip(country))) == Routing.Upper(Routing.Strip(country));
  }

  lemma PlainHostName()
    ensures PlainHost(HOST)
  {
    assert HOST == ['n', 'e', 't', 'w', 'o', 'r', 'k', '.', 'j', 'o', 'i', 'n', 'm', 'a', 's', 's', 'i', 'v', 'e', '.', 'c', 'o', 'm'];
  }

  /** Whether the region repair touches a row at all. */
  predicate Extends(catalog: Routing.Catalog, country: string, region: string) {
    Routing.Selector(catalog, country, region) != "" && Routing.Selector(catalog, country, region) != Routing.Normal(region)
  }

  /** The row after the region repair. */
  function AfterRegion(catalog: Routing.Catalog, row: Row): Row {
    if row.region != "" && Extends(catalog, row.country, row.region)
    then row.(wasSelector := Routing.Selector(catalog, row.country, row.region)) else row
  }

  /** The row after the city repair. */
  function AfterCity(row: Row): Row {
    if row.city != "" && Routing.Strip(row.city) != "" then row.(wasCity := Routing.Strip(row.city)) else row
  }

  ghost predicate BytesRow(row: Row) {
    Bytes(LegacyUser(row)) && Bytes(row.password) && Bytes(row.protocol)
  }

  lemma CleanIsBytes(catalog: Routing.Catalog, row: Row)
    requires CleanRow(catalog, row)
    ensures BytesRow(row) && Bytes(Line(row.protocol, LegacyUser(row), row.password))
  {
    UserIsBytes(row.account, Routing.Upper(row.country), if row.region != "" then Some(row.wasSelector) else None,
                if row.city != "" then Some(row.wasCity) else None, row.session);
    LineIsBytes(row.protocol, LegacyUser(row), row.password);
  }

  lemma RegionRepairs(catalog: Routing.Catalog, row: Row)
    requires CleanRow(catalog, row) && row.region != ""
    ensures BytesRow(row) && BytesRow(AfterRegion(catalog, row)) && Bytes(Line(row.protocol, LegacyUser(row), row.password))
    ensures RepairRegion(catalog, Line(row.protocol, LegacyUser(row), row.password), row.country, row.region) ==
              Some(Line(row.protocol, LegacyUser(AfterRegion(catalog, row)), row.password))
  {
    CleanIsBytes(catalog, row);
    CleanIsBytes(catalog, AfterRegion(catalog, row));
    var selector := Routing.Selector(catalog, row.country, row.region);
    if Extends(catalog, row.country, row.region) {
      RegionRewrites(row.account, Routing.Upper(row.country), row.wasSelector, if row.city != "" then Some(row.wasCity) else None, row.session, selector);
      PlainHostName();
      hide Sub, UserName, ProxyUrl, RepairUser, Clean, Bytes, PlainHost, Protocol;
      RepairsPrinted(row.protocol, HOST, PORT, LegacyUser(row), row.password, Marker("subdivision"), Markers(["city", "session"]), selector);
    }
  }

  lemma CityRepairs(catalog: Routing.Catalog, row: Row)
    requires CleanRow(catalog, row) && row.city != ""
    ensures BytesRow(row) && BytesRow(AfterCity(row)) && Bytes(Line(row.protocol, LegacyUser(row), row.password))
    ensures RepairCity(Line(row.protocol, LegacyUser(row), row.password), row.city) ==
              Some(Line(row.protocol, LegacyUser(AfterCity(row)), row.password))
  {
    CleanIsBytes(catalog, row);
    CleanIsBytes(catalog, AfterCity(row));
    var city := Routing.Strip(row.city);
    if city != "" {
      CityRewrites(row.account, Routing.Upper(row.country), if row.region != "" then Some(row.wasSelector) else None, row.wasCity, row.session, city);
      PlainHostName();
      hide Sub, UserName, ProxyUrl, RepairUser, Clean, Bytes, PlainHost, Protocol;
      RepairsPrinted(row.protocol, HOST, PORT, LegacyUser(row), row.password, Marker("city"), Markers(["session"]), city);
    }
  }

  /** Both repairs together rewrite exactly the two segments. */
  lemma RowRepairs(catalog: Routing.Catalog, row: Row)
    requires CleanRow(catalog, row)
    ensures var fixed := AfterCity(AfterRegion(catalog, row));
            && BytesRow(row) && BytesRow(fixed) && Bytes(Line(row.protocol, LegacyUser(row), row.password))
            && Repair(catalog, Line(row.protocol, LegacyUser(row), row.password), row.country, row.region, row.city) ==
                 Some(Line(row.protocol, LegacyUser(fixed), row.password))
  {
    var next := AfterRegion(catalog, row);
    assert CleanRow(catalog, next) && CleanRow(catalog, AfterCity(next));
    hide CleanRow, LegacyUser, RepairRegion, RepairCity, Bytes, Clean, Line, Extends;
    CleanIsBytes(catalog, row);
    CleanIsBytes(catalog, next);
    CleanIsBytes(catalog, AfterCity(next));
    RepairTexts(catalog, row);
    if row.region != "" {
      RegionRepairs(catalog, row);
    }
    if row.city != "" {
      CityRepairs(catalog, next);
    }
  }

  lemma RepairTexts(catalog: Routing.Catalog, row: Row)
    requires CleanRow(catalog, row)
    ensures Bytes(Routing.Selector(catalog, row.country, row.region)) && Bytes(Routing.Strip(row.city))
  {
  }

  // ------------------------------------------------------------------ the user name determines its segments

  lemma SameAround(a: string, x: string, y: string, b: string)
    requires a + x + b == a + y + b
    ensures x == y
  {
    var s := a + x + b;
    assert |x| == |y|;
    assert s[|a|..|a| + |x|] == x && s[|a|..|a| + |y|] == y;
  }

  lemma SameHalves(r: string, c: string, s: string, d: string)
    requires Clean(r) && Clean(s) && r + Marker("city") + c == s + Marker("city") + d
    ensures r == s && c == d
  {
    CleanWords(r);
    CleanWords(s);
    StartsHere(r, Marker("city"), c);
    StartsHere(s, Marker("city"), d);
    if |r| < |s| {
      NoEarlierStart(s, "city", d, |r| + |Marker("city")|);
    } else if |s| < |r| {
      NoEarlierStart(r, "city", c, |s| + |Marker("city")|);
    }
    assert (r + Marker("city") + c)[..|r|] == r && (s + Marker("city") + d)[..|s|] == s;
    assert (r + Marker("city") + c)[|r| + |Marker("city")|..] == c && (s + Marker("city") + d)[|s| + |Marker("city")|..] == d;
  }

  /** Two clean rows that differ in their old segments at most have equal user names only
      when the printed segments are equal. */
  lemma UserDetermines(row: Row, other: Row)
    requires Clean(row.wasSelector) && Clean(other.wasSelector)
    requires other == row.(wasSelector := other.wasSelector, wasCity := other.wasCity)
    ensures LegacyUser(row) == LegacyUser(other) <==>
              (row.region == "" || row.wasSelector == other.wasSelector) && (row.city == "" || row.wasCity == other.wasCity)
  {
    if LegacyUser(row) == LegacyUser(other) {
      var head, tail := Head(row.account, Routing.Upper(row.country)), Tail(row.session);
      if row.region != "" && row.city != "" {
        Regroup2(head, Marker("subdivision"), row.wasSelector, Marker("city"), row.wasCity, tail);
        Regroup2(head, Marker("subdivision"), other.wasSelector, Marker("city"), other.wasCity, tail);
        SameAround(head + Marker("subdivision"), row.wasSelector + Marker("city") + row.wasCity,
                   other.wasSelector + Marker("city") + other.wasCity, tail);
        SameHalves(row.wasSelector, row.wasCity, other.wasSelector, other.wasCity);
      } else if row.region != "" {
        Regroup3(head, Marker("subdivision"), row.wasSelector, tail);
        Regroup3(head, Marker("subdivision"), other.wasSelector, tail);
        SameAround(head + Marker("subdivision"), row.wasSelector, other.wasSelector, tail);
      } else if row.city != "" {
        Regroup4(head, Marker("city"), row.wasCity, tail);
        Regroup4(head, Marker("city"), other.wasCity, tail);
        SameAround(head + Marker("city"), row.wasCity, other.wasCity, tail);
      }
    }
  }

  lemma Regroup2(a: string, b: string, c: string, d: string, e: string, f: string)
    ensures a + (b + c) + (d + e) + f == (a + b) + (c + d + e) + f
  {
  }

  lemma Regroup3(a: string, b: string, c: string, f: string)
    ensures a + (b + c) + "" + f == (a + b) + c + f
  {
  }

  lemma Regroup4(a: string, b: string, c: string, f: string)
    ensures a + "" + (b + c) + f == (a + b) + c + f
  {
  }

  // ------------------------------------------------------------------ main results

  /** The row as it would be printed today. */
  function TodayRow(catalog: Routing.Catalog, row: Row): Row {
    row.(wasSelector := Routing.Selector(catalog, row.country, row.region), wasCity := Routing.Strip(row.city))
  }

  lemma TodayIsPrinted(catalog: Routing.Catalog, row: Row)
    ensures LegacyUser(TodayRow(catalog, row)) == TodayUser(catalog, row.account, row.country, row.region, row.city, row.session)
  {
    SelectorIgnoresCase(catalog, row.country, row.region);
  }

  /** Repairing a row gives exactly the line printed today for its session, unless the code
      skips a segment that differs: a region without parents is left as it was printed, and
      so is a city that is blank. */
  lemma LegacyBecomesToday(catalog: Routing.Catalog, row: Row)
    requires CleanRow(catalog, row)
    ensures var today := TodayUser(catalog, row.account, row.country, row.region, row.city, row.session);
            && BytesRow(row) && Bytes(Line(row.protocol, LegacyUser(row), row.password)) && Bytes(today)
            && (Repair(catalog, Line(row.protocol, LegacyUser(row), row.password), row.country, row.region, row.city) ==
                  Some(Line(row.protocol, today, row.password)) <==>
                  && (row.region == "" || Extends(catalog, row.country, row.region) ||
                      row.wasSelector == Routing.Selector(catalog, row.country, row.region))
                  && (row.city == "" || Routing.Strip(row.city) != "" || row.wasCity == ""))
  {
    var today, fixed := TodayRow(catalog, row), AfterCity(AfterRegion(catalog, row));
    TodayIsPrinted(catalog, row);
    CleanIsBytes(catalog, row);
    CleanIsBytes(catalog, today);
    RowRepairs(catalog, row);
    assert Clean(fixed.wasSelector) && Clean(today.wasSelector);
    UserDetermines(fixed, today);
    PlainHostName();
    assert Protocol(row.protocol);
    hide Clean, LegacyUser, TodayUser, Repair, Bytes, PlainHost, Protocol;
    ParsePrinted(row.protocol, HOST, PORT, LegacyUser(fixed), row.password);
    ParsePrinted(row.protocol, HOST, PORT, LegacyUser(today), row.password);
  }

  lemma CleanWithoutI(s: string)
    requires Bytes(s) && 'i' !in s && '\n' !in s
    ensures Clean(s)
  {
    LacksLetter(s, "city", 1);
    LacksLetter(s, "session", 4);
    LacksLetter(s, "subdivision", 4);
  }

  /** A row of a region that is stored, and was printed, in lower case. */
  const SkippedRegion := Row("http", "p", "a", "US", "ca", "", "ca", "", "s")

  lemma SkippedTexts()
    ensures Routing.Strip("US") == "US" && Routing.Strip("ca") == "ca" && Routing.Strip("") == ""
    ensures Routing.Upper("US") == "US" && Routing.Upper("ca") == "CA"
    ensures Routing.Selector(map[], "US", "ca") == "CA"
  {
    assert Routing.Normal("ca") == "CA" && Routing.Normal("US") == "US";
    assert Routing.Ancestors(map[], "US", "US-CA", {}) == [];
    assert "US" + "-" + "CA" == "US-CA";
    assert ["CA"] + [] == ["CA"] && ["CA"][..0] == [] && Distinct(["CA"]) == ["CA"];
    assert Routing.Selection(map[], "US", "CA") == ["CA"];
  }

  /** The exception of `LegacyBecomesToday` for regions occurs: a region code without parents is
      printed in upper case today, but a line printed in lower case is left alone. */
  lemma SkippedRegionStays()
    ensures var row := SkippedRegion;
            var today := TodayUser(map[], row.account, row.country, row.region, row.city, row.session);
            && CleanRow(map[], row)
            && BytesRow(row) && Bytes(Line(row.protocol, LegacyUser(row), row.password)) && Bytes(today)
            && Bytes(Routing.Selector(map[], row.country, row.region)) && Bytes(Routing.Strip(row.city))
            && Repair(map[], Line(row.protocol, LegacyUser(row), row.password), row.country, row.region, row.city) !=
                 Some(Line(row.protocol, today, row.password))
  {
    var row := SkippedRegion;
    SkippedTexts();
    assert Routing.Normal("ca") == "CA";
    hide Routing.Selector, Routing.Strip, Routing.Upper, Routing.Normal, Clean;
    assert CleanRow(map[], row) by {
      CleanWithoutI(row.account);
      CleanWithoutI(Routing.Upper(row.country));
      CleanWithoutI(row.wasSelector);
      CleanWithoutI(row.wasCity);
      CleanWithoutI(Routing.Selector(map[], row.country, row.region));
      CleanWithoutI(Routing.Strip(row.city));
      assert Lower("http") == "http";
    }
    hide Repair, LegacyUser, TodayUser, Line;
    RepairTexts(map[], row);
    LegacyBecomesToday(map[], row);
  }

  /** A line printed today is left as it is. */
  lemma TodayStays(catalog: Routing.Catalog, row: Row)
    requires CleanRow(catalog, row)
    ensures var today := TodayUser(catalog, row.account, row.country, row.region, row.city, row.session);
            && Bytes(today) && Bytes(Line(row.protocol, today, row.password))
            && Repair(catalog, Line(row.protocol, today, row.password), row.country, row.region, row.city) ==
                 Some(Line(row.protocol, today, row.password))
  {
    var today := TodayRow(catalog, row);
    TodayIsPrinted(catalog, row);
    CleanIsBytes(catalog, today);
    RowRepairs(catalog, today);
  }

  /** Repairing a row a second time changes nothing. */
  lemma RepairIsIdempotent(catalog: Routing.Catalog, row: Row)
    requires CleanRow(catalog, row)
    ensures BytesRow(row) && Bytes(Line(row.protocol, LegacyUser(row), row.password))
    ensures var once := Repair(catalog, Line(row.protocol, LegacyUser(row), row.password), row.country, row.region, row.city);
            && once.Some? && Bytes(once.value)
            && Repair(catalog, once.value, row.country, row.region, row.city) == once
  {
    RowRepairs(catalog, row);
    RowRepairs(catalog, AfterCity(AfterRegion(catalog, row)));
  }
}
