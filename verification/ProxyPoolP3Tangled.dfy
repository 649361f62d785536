/** Two printed P3 lines that share a session and whose repairs run into each other. */
module ProxyPoolP3Tangled {
  import opened Wrappers
  import opened Sequences
  import opened ProxyPool
  import opened ProxyPrefill
  import opened ProxyPrefillRefinement
  import opened ProxyPrefillTangled
  import opened ProxyPoolP3
  import Routing = P3Routing
  import Url = P3Url
  import RoundTrip = P3UrlRoundTrip
  import Printer = P3RepairTheorems

  /** Meath with its parent Leinster. */
  const IRELAND: Routing.Catalog := map["IE-MH" := "IE-L", "IE-L" := ""]

  const HYPHENATED := Scope(1, "P3", "IE", "MH", "Old-Town")
  const SPACED := Scope(1, "P3", "IE", "MH", "Old Town")

  /** Printed before the parent was added to the selector. */
  const FIRST := Printer.Row("http", "p", "u", "IE", "MH", "Old-Town", "MH", "Old-Town", "s")

  /** Printed after that, when cities were still hyphenated, in the same session. */
  const SECOND := Printer.Row("http", "p", "u", "IE", "MH", "Old Town", "MH,L", "Old-Town", "s")

  lemma MeathTexts()
    ensures Routing.Normal("IE") == "IE" && Routing.Normal("MH") == "MH" && Routing.Upper("IE") == "IE" && "IE" + "-" + "MH" == "IE-MH"
  {
    assert Routing.Strip("IE") == "IE" && Routing.Strip("MH") == "MH";
    assert Routing.Upper("IE") == "IE" && Routing.Upper("MH") == "MH";
  }

  lemma MeathAncestors()
    ensures Routing.Ancestors(IRELAND, "IE", "IE-MH", {}) == ["L"]
  {
    MeathParent();
    hide Routing.Parent, IRELAND;
    assert {} + {"IE-MH"} == {"IE-MH"};
    assert Routing.Ancestors(IRELAND, "IE", "IE-L", {"IE-MH"}) == [];
    assert ["L"] + [] == ["L"];
  }

  lemma TwoCodes()
    ensures Distinct(["MH"] + ["L"]) == ["MH", "L"] && Routing.Join(["MH", "L"]) == "MH,L"
  {
    var both := ["MH"] + ["L"];
    assert both[..1] == ["MH"] && ["MH"][..0] == [] && Distinct(["MH"]) == ["MH"];
    assert ["MH", "L"][..1] == ["MH"] && Routing.Join(["MH"]) == "MH";
  }

  lemma MeathSelector()
    ensures Routing.Selector(IRELAND, "IE", "MH") == "MH,L" && Routing.Normal("MH") == "MH" && Routing.Upper("IE") == "IE"
  {
    MeathTexts();
    MeathAncestors();
    TwoCodes();
    hide Routing.Ancestors, Distinct, Routing.Join, Routing.Normal, Routing.Upper, IRELAND;
    assert Routing.Selection(IRELAND, "IE", "MH") == ["MH", "L"];
  }

  lemma MeathParent()
    ensures Routing.Parent(IRELAND, "IE", "IE-MH") == Some(("IE-L", "L")) && Routing.Parent(IRELAND, "IE", "IE-L").None?
  {
    assert Routing.Strip("IE-L") == "IE-L" && Routing.Strip("L") == "L" && Routing.Strip("") == "";
    assert Routing.Hyphen("IE-L") == 2 && Routing.Hyphen("") == 0;
    assert Routing.Upper("IE") == "IE" && Routing.Upper("L") == "L";
    assert "IE-L"[..2] == "IE" && "IE-L"[3..] == "L";
  }

  lemma TownsAreStripped()
    ensures Routing.Strip("Old-Town") == "Old-Town" && Routing.Strip("Old Town") == "Old Town"
  {
  }

  lemma CleanShort()
    ensures Printer.Clean("u") && Printer.Clean("IE") && Printer.Clean("s") && Printer.Clean("MH") && Printer.Clean("MH,L")
  {
    hide Printer.Clean;
    Printer.CleanWithoutI("u");
    Printer.CleanWithoutI("IE");
    Printer.CleanWithoutI("s");
    Printer.CleanWithoutI("MH");
    Printer.CleanWithoutI("MH,L");
  }

  lemma CleanTowns()
    ensures Printer.Clean("Old-Town") && Printer.Clean("Old Town")
  {
    hide Printer.Clean;
    Printer.CleanWithoutI("Old-Town");
    Printer.CleanWithoutI("Old Town");
  }

  lemma HttpIsProtocol()
    ensures Url.Protocol("http") && Url.Bytes("http") && Url.Bytes("p") && Url.Bytes("s")
  {
    assert Url.Lower("http") == "http";
  }

  lemma RowsAreClean(row: Printer.Row)
    requires row == FIRST || row == SECOND
    ensures Printer.CleanRow(IRELAND, row) && Printer.Clean(row.session)
  {
    hide Routing.Selector, Routing.Strip, Routing.Upper, Printer.Clean, IRELAND, Url.Bytes, Url.Protocol;
    MeathSelector();
    TownsAreStripped();
    CleanShort();
    CleanTowns();
    HttpIsProtocol();
  }

  lemma RowsAreBytes(row: Printer.Row)
    requires Printer.CleanRow(IRELAND, row)
    ensures Url.Bytes(Printer.LegacyUser(row)) && Url.Bytes(row.password)
  {
    Printer.CleanIsBytes(IRELAND, row);
    hide Printer.LegacyUser, Url.Bytes;
  }

  /** The line of a row; both rows are clean. */
  function LineOf(row: Printer.Row): string
    requires Url.Bytes(Printer.LegacyUser(row)) && Url.Bytes(row.password)
  {
    Printer.Line(row.protocol, Printer.LegacyUser(row), row.password)
  }

  lemma LinesDiffer(a: Printer.Row, b: Printer.Row)
    requires Printer.CleanRow(IRELAND, a) && Printer.CleanRow(IRELAND, b) && b == a.(wasSelector := b.wasSelector, wasCity := b.wasCity)
    requires a.region != "" && a.city != "" && (a.wasSelector != b.wasSelector || a.wasCity != b.wasCity)
    ensures Url.Bytes(Printer.LegacyUser(a)) && Url.Bytes(Printer.LegacyUser(b)) && Url.Bytes(a.password) && LineOf(a) != LineOf(b)
  {
    RowsAreBytes(a);
    RowsAreBytes(b);
    Printer.UserDetermines(a, b);
    Printer.PlainHostName();
    hide Printer.LegacyUser, Url.Bytes, Url.ProxyUrl, Url.Split, Printer.Clean;
    RoundTrip.ParsePrinted(a.protocol, Printer.HOST, Printer.PORT, Printer.LegacyUser(a), a.password);
    RoundTrip.ParsePrinted(b.protocol, Printer.HOST, Printer.PORT, Printer.LegacyUser(b), b.password);
  }

  const P3_ENV := Env((line: string) => line, (scope: Scope, line: string) => RepairLine(IRELAND, scope, line))

  lemma FirstRepairs()
    ensures Repaired(IRELAND, FIRST) == FIRST.(wasSelector := "MH,L") && Repaired(IRELAND, SECOND) == SECOND.(wasCity := "Old Town")
    ensures Printer.LegacyUser(FIRST.(wasSelector := "MH,L")) == Printer.LegacyUser(SECOND)
  {
    MeathSelector();
    TownsAreStripped();
    hide Routing.Selector, Routing.Strip, Routing.Upper, Routing.Normal;
  }

  lemma IsPrinted(scope: Scope, row: Printer.Row)
    requires (scope == HYPHENATED && row == FIRST) || (scope == SPACED && row == SECOND)
    ensures Url.Bytes(Printer.LegacyUser(row)) && Url.Bytes(row.password) && PrintedFrom(IRELAND, scope, row, LineOf(row))
  {
    RowsAreClean(row);
    RowsAreBytes(row);
    hide Printer.CleanRow, Printer.LegacyUser, Url.Bytes, Printer.Clean;
  }

  /** The line of a printed row as its scope repairs it. */
  lemma RepairedLine(scope: Scope, row: Printer.Row)
    requires (scope == HYPHENATED && row == FIRST) || (scope == SPACED && row == SECOND)
    ensures Printer.CleanRow(IRELAND, row) && Printer.CleanRow(IRELAND, Repaired(IRELAND, row))
    ensures Url.Bytes(Printer.LegacyUser(row)) && Url.Bytes(Printer.LegacyUser(Repaired(IRELAND, row)))
    ensures Url.Bytes(row.password) && Url.Bytes(Repaired(IRELAND, row).password)
    ensures P3_ENV.repair(scope, LineOf(row)) == LineOf(Repaired(IRELAND, row))
  {
    IsPrinted(scope, row);
    RepairOfPrinted(IRELAND, scope, row, LineOf(row));
    hide RepairLine, Repaired, Printer.CleanRow, Printer.LegacyUser, Url.Bytes, Printer.Clean;
  }

  /** The knot of the two lines. */
  function P3Knot(): Knot
    requires Url.Bytes(Printer.LegacyUser(FIRST)) && Url.Bytes(Printer.LegacyUser(SECOND)) && Url.Bytes("p")
    requires Url.Bytes(Printer.LegacyUser(SECOND.(wasCity := "Old Town")))
  {
    Knot(HYPHENATED, SPACED, LineOf(FIRST), LineOf(SECOND), LineOf(SECOND.(wasCity := "Old Town")))
  }

  lemma P3KnotTies()
    ensures Url.Bytes(Printer.LegacyUser(FIRST)) && Url.Bytes(Printer.LegacyUser(SECOND)) && Url.Bytes("p")
    ensures Url.Bytes(Printer.LegacyUser(SECOND.(wasCity := "Old Town"))) && Ties(P3_ENV, P3Knot())
  {
    var first, second, third := FIRST, SECOND, SECOND.(wasCity := "Old Town");
    var fixed := first.(wasSelector := "MH,L");
    hide LineOf, RepairLine, Repaired, Printer.CleanRow, Printer.LegacyUser, Url.Bytes, Printer.Line, P3_ENV, IRELAND;
    FirstRepairs();
    RepairedLine(HYPHENATED, first);
    RepairedLine(SPACED, second);
    LinesDiffer(first, fixed);
    LinesDiffer(second, third);
    SameText(fixed, second);
    FirstIsNotThird();
    DigestIsLine(LineOf(first), LineOf(second));
    DigestIsLine(LineOf(second), LineOf(third));
    DigestIsLine(LineOf(first), LineOf(third));
  }

  lemma SameText(a: Printer.Row, b: Printer.Row)
    requires Url.Bytes(Printer.LegacyUser(a)) && Url.Bytes(a.password) && Printer.LegacyUser(a) == Printer.LegacyUser(b)
    requires a.protocol == b.protocol && a.password == b.password
    ensures LineOf(a) == LineOf(b)
  {
    hide Printer.LegacyUser, Url.Bytes, Printer.Line;
  }

  lemma DigestIsLine(a: string, b: string)
    ensures P3_ENV.digest(a) == P3_ENV.digest(b) <==> a == b
  {
  }

  /** The spaced city shows in the last line only. */
  lemma FirstIsNotThird()
    ensures var first, third := FIRST, SECOND.(wasCity := "Old Town");
            Url.Bytes(Printer.LegacyUser(first)) && Url.Bytes(Printer.LegacyUser(third)) && Url.Bytes("p") && LineOf(first) != LineOf(third)
  {
    var first, third := FIRST, SECOND.(wasCity := "Old Town");
    var other := first.(wasSelector := "MH,L", wasCity := "Old Town");
    RowsAreClean(first);
    assert Printer.CleanRow(IRELAND, other) by {
      hide Printer.Clean, IRELAND, Url.Bytes, Url.Protocol;
      CleanShort();
      CleanTowns();
    }
    assert Printer.LegacyUser(other) == Printer.LegacyUser(third);
    hide LineOf, Printer.CleanRow, Printer.LegacyUser, Url.Bytes, Printer.Line, Printer.Clean, IRELAND;
    LinesDiffer(first, other);
    SameText(other, third);
  }

  /** With the P3 repair: two printed lines of one session, one for a hyphenated city and one for
      its spaced namesake, make the batch size decide whether a prefill completes.  Lines of
      distinct sessions never do. */
  lemma SharedSessionShowsTheSize(now: int)
    ensures RepairsP3(P3_ENV, IRELAND) && Injective(P3_ENV.digest) && FIRST.session == SECOND.session
    ensures Url.Bytes(Printer.LegacyUser(FIRST)) && Url.Bytes(Printer.LegacyUser(SECOND)) && Url.Bytes("p")
    ensures Url.Bytes(Printer.LegacyUser(SECOND.(wasCity := "Old Town")))
    ensures PrintedFrom(IRELAND, HYPHENATED, FIRST, P3Knot().first) && PrintedFrom(IRELAND, SPACED, SECOND, P3Knot().second)
    ensures var p := Tied(P3_ENV, P3Knot());
            && Eligible(p, [1, 0]) && Generous(p, Nothing) && FreshSupply(P3_ENV, p, [1, 0], Nothing) && Unowned(p, [1, 0], 0)
            && FillDirect(P3_ENV, p, [1, 0], 1, Nothing, now, 0).1
            && !FillDirect(P3_ENV, p, [1, 0], 2, Nothing, now, 0).1
  {
    assert forall scope: Scope, line: string :: P3_ENV.repair(scope, line) == RepairLine(IRELAND, scope, line);
    assert forall line: string :: P3_ENV.digest(line) == line;
    hide RepairLine, PrintedFrom, Printer.LegacyUser, Url.Bytes, Printer.Line, Eligible, Generous, FreshSupply, Unowned, FillDirect, Tied, Ties;
    P3KnotTies();
    IsPrinted(HYPHENATED, FIRST);
    IsPrinted(SPACED, SECOND);
    TangledRepairsShowTheSize(P3_ENV, P3Knot(), now);
  }
}
