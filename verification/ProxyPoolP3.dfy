/** The pool with the repair of P3 lines plugged in: lines printed today need no repair, and
    lines of different sessions are never repaired onto one another. */
module ProxyPoolP3 {
  import opened Wrappers
  import opened ProxyPool
  import opened ProxyPoolSound
  import opened ProxyPoolStock
  import opened ProxyPrefillCompletion
  import Routing = P3Routing
  import Url = P3Url
  import RoundTrip = P3UrlRoundTrip
  import Lines = P3Repair
  import Printer = P3RepairTheorems

  /** The repair at issue time; only P3 lines are repaired.  Lines that are not bytes, or whose
      port makes the code raise, are outside the printed ones. */
  function RepairLine(catalog: Routing.Catalog, scope: Scope, line: string): string {
    if scope.provider == "P3" && Url.Bytes(line) && Url.Bytes(Routing.Selector(catalog, scope.country, scope.region)) &&
       Url.Bytes(Routing.Strip(scope.city))
    then
      var repaired := Lines.Repair(catalog, line, scope.country, scope.region, scope.city);
      if repaired.Some? then repaired.value else line
    else line
  }

  ghost predicate RepairsP3(env: Env, catalog: Routing.Catalog) {
    forall scope: Scope, line: string :: env.repair(scope, line) == RepairLine(catalog, scope, line)
  }

  /** A line was printed for a scope from a clean row, with today's segments or older ones. */
  ghost predicate PrintedFrom(catalog: Routing.Catalog, scope: Scope, row: Printer.Row, line: string) {
    && scope.provider == "P3" && Printer.CleanRow(catalog, row) && Printer.Clean(row.session)
    && row.country == scope.country && row.region == scope.region && row.city == scope.city
    && Url.Bytes(Printer.LegacyUser(row)) && Url.Bytes(row.password)
    && line == Printer.Line(row.protocol, Printer.LegacyUser(row), row.password)
  }

  /** The row with both segments repaired. */
  function Repaired(catalog: Routing.Catalog, row: Printer.Row): Printer.Row {
    Printer.AfterCity(Printer.AfterRegion(catalog, row))
  }

  lemma RepairOfPrinted(catalog: Routing.Catalog, scope: Scope, row: Printer.Row, line: string)
    requires PrintedFrom(catalog, scope, row, line)
    ensures PrintedFrom(catalog, scope, Repaired(catalog, row), RepairLine(catalog, scope, line))
  {
    Printer.RowRepairs(catalog, row);
    Printer.RepairTexts(catalog, row);
    Printer.CleanIsBytes(catalog, row);
    hide Lines.Repair, Printer.LegacyUser, Printer.Line, Printer.Clean, Url.Bytes;
  }

  // ------------------------------------------------------------------ lines printed today

  /** The segments of the row are today's. */
  predicate IsToday(catalog: Routing.Catalog, row: Printer.Row) {
    row == Printer.TodayRow(catalog, row)
  }

  lemma TodayNeedsNoRepair(catalog: Routing.Catalog, scope: Scope, row: Printer.Row, line: string)
    requires PrintedFrom(catalog, scope, row, line) && IsToday(catalog, row)
    ensures RepairLine(catalog, scope, line) == line
  {
    RepairOfPrinted(catalog, scope, row, line);
    assert Repaired(catalog, row) == row;
  }

  // ------------------------------------------------------------------ sessions

  /** The word cannot overlap its marker from the left. */
  lemma LaterMarker(h: string, s: string, g: string, r: string)
    requires h + Lines.Marker("session") + s == g + Lines.Marker("session") + r && |h| < |g|
    ensures Lines.Has(s, "session")
  {
    var m := Lines.Marker("session");
    var u := h + m + s;
    assert m == "-session-" && |m| == 9;
    assert u[|g|] == (g + m + r)[|g|] == '-';
    assert u[|g| + 1..|g| + 8] == (g + m + r)[|g| + 1..|g| + 8] == "session";
    assert forall i | |h| < i < |h| + 8 :: u[i] == m[i - |h|] != '-';
    if |g| >= |h| + 8 {
      var k := |g| + 1 - (|h| + 9);
      assert s[k..k + 7] == u[|g| + 1..|g| + 8];
      assert Lines.At(s, "session", k);
    }
  }

  lemma SameSession(h: string, s: string, g: string, r: string)
    requires h + Lines.Marker("session") + s == g + Lines.Marker("session") + r
    requires !Lines.Has(s, "session") && !Lines.Has(r, "session")
    ensures s == r
  {
    if |h| < |g| {
      LaterMarker(h, s, g, r);
    } else if |g| < |h| {
      LaterMarker(g, r, h, s);
    }
    var n := |h| + |Lines.Marker("session")|;
    assert (h + Lines.Marker("session") + s)[n..] == s && (g + Lines.Marker("session") + r)[n..] == r;
  }

  function Before(row: Printer.Row): string {
    Printer.Head(row.account, Routing.Upper(row.country)) +
    Printer.Segment("subdivision", if row.region != "" then Some(row.wasSelector) else None) +
    Printer.Segment("city", if row.city != "" then Some(row.wasCity) else None)
  }

  lemma UserEndsInSession(row: Printer.Row)
    ensures Printer.LegacyUser(row) == Before(row) + Lines.Marker("session") + row.session
  {
    hide Lines.Marker, Printer.Segment, Printer.Head;
  }

  /** Lines of different sessions differ. */
  lemma SessionsTellLinesApart(catalog: Routing.Catalog, scope: Scope, row: Printer.Row, line: string,
                               place: Scope, other: Printer.Row, text: string)
    requires PrintedFrom(catalog, scope, row, line) && PrintedFrom(catalog, place, other, text) && row.session != other.session
    ensures line != text
  {
    Printer.PlainHostName();
    Printer.CleanWords(row.session);
    Printer.CleanWords(other.session);
    UserEndsInSession(row);
    UserEndsInSession(other);
    if line == text {
      hide Printer.LegacyUser, Url.ProxyUrl, Url.Split, Printer.Clean, Lines.Has, Before, Lines.Marker;
      RoundTrip.ParsePrinted(row.protocol, Printer.HOST, Printer.PORT, Printer.LegacyUser(row), row.password);
      RoundTrip.ParsePrinted(other.protocol, Printer.HOST, Printer.PORT, Printer.LegacyUser(other), other.password);
      SameSession(Before(row), row.session, Before(other), other.session);
    }
  }

  ghost predicate Injective(digest: string -> string) {
    forall x, y :: digest(x) == digest(y) ==> x == y
  }

  /** Two printed lines of different sessions, repaired or not. */
  lemma RepairsStayApart(catalog: Routing.Catalog, scope: Scope, row: Printer.Row, line: string,
                         place: Scope, other: Printer.Row, text: string)
    requires PrintedFrom(catalog, scope, row, line) && PrintedFrom(catalog, place, other, text) && row.session != other.session
    ensures RepairLine(catalog, scope, line) != text && RepairLine(catalog, scope, line) != RepairLine(catalog, place, text)
  {
    var fixed, mended := Repaired(catalog, row), Repaired(catalog, other);
    assert fixed.session == row.session && mended.session == other.session;
    hide *;
    RepairOfPrinted(catalog, scope, row, line);
    RepairOfPrinted(catalog, place, other, text);
    SessionsTellLinesApart(catalog, scope, fixed, RepairLine(catalog, scope, line), place, other, text);
    SessionsTellLinesApart(catalog, scope, fixed, RepairLine(catalog, scope, line), place, mended, RepairLine(catalog, place, text));
  }

  /** Stock of P3 targets with distinct sessions: whatever their lines were printed with, no
      repair of one runs into another. */
  lemma DistinctSessionsAreUntangled(catalog: Routing.Catalog, env: Env, p: Pool, ts: seq<nat>, rows: nat -> Printer.Row)
    requires Sound(env, p) && RepairsP3(env, catalog) && Injective(env.digest)
    requires forall i: nat | IsStock(p, ts, i) :: PrintedFrom(catalog, p.targets[p.entries[i].target].scope, rows(i), p.entries[i].line)
    requires forall i: nat, k: nat | IsStock(p, ts, i) && IsStock(p, ts, k) && i != k :: rows(i).session != rows(k).session
    ensures Untangled(env, p, ts)
  {
    StockIsLabelled(env, p, ts);
    hide Sound, PrintedFrom, RepairLine, Injective;
    forall i: nat, k: nat | IsStock(p, ts, i) && IsStock(p, ts, k) && p.entries[i].target != p.entries[k].target
      ensures Print(env, p, i) != p.entries[k].fingerprint && Print(env, p, i) != Print(env, p, k)
    {
      var line, text := p.entries[i].line, p.entries[k].line;
      var here, there := p.targets[p.entries[i].target].scope, p.targets[p.entries[k].target].scope;
      assert rows(i).session != rows(k).session;
      RepairsStayApart(catalog, here, rows(i), line, there, rows(k), text);
      PrintsDiffer(env, RepairLine(catalog, here, line), text);
      PrintsDiffer(env, RepairLine(catalog, here, line), RepairLine(catalog, there, text));
    }
  }

  lemma StockIsLabelled(env: Env, p: Pool, ts: seq<nat>)
    requires Sound(env, p)
    ensures forall i: nat | IsStock(p, ts, i) :: p.entries[i].fingerprint == env.digest(p.entries[i].line)
  {
  }

  lemma PrintsDiffer(env: Env, a: string, b: string)
    requires Injective(env.digest) && a != b
    ensures env.digest(a) != env.digest(b)
  {
  }

  // ------------------------------------------------------------------ requests for P3

  /** Today's line for the request. */
  ghost predicate TodayLine(catalog: Routing.Catalog, scope: Scope, line: string) {
    exists row :: PrintedFrom(catalog, scope, row, line) && IsToday(catalog, row)
  }

  /** Never given out from the static catalog. */
  predicate NotStatic(env: Env, rs: seq<Reservation>, line: string) {
    forall k | 0 <= k < |rs| :: rs[k].entry.None? ==> rs[k].fingerprint != env.digest(line)
  }

  lemma TodayIsIssuedUnchanged(catalog: Routing.Catalog, env: Env, rs: seq<Reservation>, scope: Scope, line: string)
    requires RepairsP3(env, catalog) && TodayLine(catalog, scope, line) && NotStatic(env, rs, line)
    ensures IssuedUnchanged(env, rs, scope, line)
  {
    var row :| PrintedFrom(catalog, scope, row, line) && IsToday(catalog, row);
    TodayNeedsNoRepair(catalog, scope, row, line);
    assert env.repair(scope, line) == RepairLine(catalog, scope, line);
  }

  /** A P3 request is served when its target is active, its missing lines are new, and its
      stock and the new lines are lines of today that the static catalog never gave out. */
  lemma TodayRequestsSucceed(catalog: Routing.Catalog, env: Env, p: Pool, r: JobRequest, supply: Option<seq<string>>,
                             lines: seq<string>, autoGenerate: bool, brokered: bool)
    requires Sound(env, p) && RepairsP3(env, catalog) && ValidRequest(r) && r.scope.provider == "P3" && Stockable(env, p, r, supply)
    requires forall i | 0 <= i < |p.entries| && p.entries[i].state == Available && p.entries[i].target == KeyOf(p.targets, r.scope) ::
               TodayLine(catalog, r.scope, p.entries[i].line) && NotStatic(env, p.reservations, p.entries[i].line)
    requires forall i | 0 <= i < |NewLines(p, r, supply)| ::
               TodayLine(catalog, r.scope, NewLines(p, r, supply)[i]) && NotStatic(env, p.reservations, NewLines(p, r, supply)[i])
    ensures CreateJob(env, p, r, supply, lines, autoGenerate, brokered).Some?
  {
    assert Dynamic(r.scope.provider);
    hide Sound, Stockable, TodayLine, NotStatic, IssuedUnchanged, RepairsP3, KeyOf, NewLines, CreateJob;
    forall i | 0 <= i < |p.entries| && p.entries[i].state == Available && p.entries[i].target == KeyOf(p.targets, r.scope)
      ensures IssuedUnchanged(env, p.reservations, r.scope, p.entries[i].line)
    {
      TodayIsIssuedUnchanged(catalog, env, p.reservations, r.scope, p.entries[i].line);
    }
    forall i | 0 <= i < |NewLines(p, r, supply)| ensures IssuedUnchanged(env, p.reservations, r.scope, NewLines(p, r, supply)[i]) {
      TodayIsIssuedUnchanged(catalog, env, p.reservations, r.scope, NewLines(p, r, supply)[i]);
    }
    UnrepairedSucceeds(env, p, r, supply);
    CreationSucceeds(env, p, r, supply, lines, autoGenerate, brokered);
  }
}
