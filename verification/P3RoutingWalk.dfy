/** The loop of the subdivision selector (control/p3_routing.py): exactly when it ends, and
    what it returns. */
module P3RoutingWalk {
  import opened Wrappers
  import opened Sequences
  import opened P3Routing

  // ------------------------------------------------------------------ when the loop ends

  /** One pass of the loop body; `None` when it breaks. */
  function Pass(catalog: Catalog, country: string, result: seq<string>, code: string): Option<(seq<string>, string)> {
    match Parent(catalog, country, code)
    case None => None
    case Some((parent, region)) => Some((if region in result then result else result + [region], parent))
  }

  /** The loop makes at least `n` passes and enters its body once more. */
  predicate Running(catalog: Catalog, country: string, result: seq<string>, code: string, n: nat)
    decreases n
  {
    |result| < LIMIT && code in catalog &&
    (n == 0 || (Pass(catalog, country, result, code).Some? &&
                Running(catalog, country, Pass(catalog, country, result, code).value.0, Pass(catalog, country, result, code).value.1, n - 1)))
  }

  /** Walking up from `code`, a listed code comes a second time while the list has room. */
  predicate Revisits(catalog: Catalog, country: string, result: seq<string>, code: string, seen: set<string>)
    decreases catalog.Keys - seen
  {
    |result| < LIMIT && code in catalog &&
    (code in seen ||
     (Pass(catalog, country, result, code).Some? &&
      Revisits(catalog, country, Pass(catalog, country, result, code).value.0, Pass(catalog, country, result, code).value.1, seen + {code})))
  }

  predicate NeverEnds(catalog: Catalog, country: string, region: string) {
    Revisits(catalog, country, [region], country + "-" + region, {})
  }

  lemma {:induction false} StopsUnlessRevisiting(catalog: Catalog, country: string, result: seq<string>, code: string, seen: set<string>)
      returns (n: nat)
    requires !Revisits(catalog, country, result, code, seen)
    ensures !Running(catalog, country, result, code, n)
    decreases catalog.Keys - seen
  {
    n := 1;
    if |result| < LIMIT && code in catalog && Pass(catalog, country, result, code).Some? {
      var (longer, parent) := Pass(catalog, country, result, code).value;
      var m := StopsUnlessRevisiting(catalog, country, longer, parent, seen + {code});
      n := m + 1;
    }
  }

  /** The parent of each code of `from` is in `to`, and its region is collected. */
  ghost predicate Climbs(catalog: Catalog, country: string, result: seq<string>, from: set<string>, to: set<string>) {
    forall c | c in from :: Parent(catalog, country, c).Some? && Parent(catalog, country, c).value.0 in to && Parent(catalog, country, c).value.1 in result
  }

  lemma ParentIsListed(catalog: Catalog, country: string, code: string)
    ensures Parent(catalog, country, code).Some? ==> code in catalog
  {
  }

  /** Codes that are closed under parents, with their regions collected, are never left. */
  lemma {:induction false} StaysInside(catalog: Catalog, country: string, result: seq<string>, code: string, seen: set<string>, n: nat)
    requires Climbs(catalog, country, result, seen, seen) && code in seen && |result| < LIMIT
    ensures Running(catalog, country, result, code, n)
    decreases n
  {
    hide Parent;
    ParentIsListed(catalog, country, code);
    if n > 0 {
      StaysInside(catalog, country, result, Parent(catalog, country, code).value.0, seen, n - 1);
    }
  }

  lemma {:induction false} RevisitingRuns(catalog: Catalog, country: string, result: seq<string>, code: string, seen: set<string>, n: nat)
    requires Climbs(catalog, country, result, seen, seen + {code}) && Revisits(catalog, country, result, code, seen)
    ensures Running(catalog, country, result, code, n)
    decreases n
  {
    hide Parent;
    if code in seen {
      assert seen + {code} == seen;
      StaysInside(catalog, country, result, code, seen, n);
    } else if n > 0 {
      var (longer, parent) := Pass(catalog, country, result, code).value;
      RevisitingRuns(catalog, country, longer, parent, seen + {code}, n - 1);
    }
  }

  /** The loop runs for ever exactly when the walk revisits a code before the list is full. */
  lemma RunsForever(catalog: Catalog, country: string, region: string)
    ensures (forall n: nat :: Running(catalog, country, [region], country + "-" + region, n)) <==> NeverEnds(catalog, country, region)
  {
    var code := country + "-" + region;
    if NeverEnds(catalog, country, region) {
      forall n: nat ensures Running(catalog, country, [region], code, n) {
        RevisitingRuns(catalog, country, [region], code, {}, n);
      }
    } else {
      var n := StopsUnlessRevisiting(catalog, country, [region], code, {});
    }
  }

  // ------------------------------------------------------------------ the same in terms of chains

  function RegionOf(code: string): string {
    var k := Hyphen(code);
    if k == |code| then "" else Normal(code[k + 1..])
  }

  function Regions(codes: seq<string>): seq<string> {
    seq(|codes|, i requires 0 <= i < |codes| => RegionOf(codes[i]))
  }

  /** The distinct regions collected along a chain that starts at the requested code. */
  function Collected(region: string, chain: seq<string>): seq<string>
    requires chain != []
  {
    Distinct([region] + Regions(chain[1..]))
  }

  /** A chain of same-country parents from the requested code that comes back to one of its
      codes with fewer than five distinct regions on the way. */
  ghost predicate ComesBack(catalog: Catalog, country: string, region: string, chain: seq<string>) {
    && |chain| >= 2 && chain[0] == country + "-" + region && IsChain(catalog, country, chain)
    && chain[|chain| - 1] in chain[..|chain| - 1]
    && |Collected(region, chain)| < LIMIT
  }

  ghost function Visited(chain: seq<string>): set<string>
    requires chain != []
  {
    set i | 0 <= i < |chain| - 1 :: chain[i]
  }

  lemma {:induction false} DistinctExtends(xs: seq<string>, ys: seq<string>)
    ensures Distinct(xs) <= Distinct(xs + ys)
  {
    if ys == [] {
      assert xs + ys == xs;
    } else {
      DistinctExtends(xs, ys[..|ys| - 1]);
      assert (xs + ys)[..|xs + ys| - 1] == xs + ys[..|ys| - 1];
    }
  }

  lemma DistinctAppends(xs: seq<string>, x: string)
    ensures Distinct(xs + [x]) == if x in xs then Distinct(xs) else Distinct(xs) + [x]
  {
    assert (xs + [x])[..|xs|] == xs;
  }

  /** A parent carries its region. */
  lemma ParentHasRegion(catalog: Catalog, country: string, code: string, parent: string)
    requires IsParent(catalog, country, code, parent)
    ensures code in catalog && Parent(catalog, country, code) == Some((parent, RegionOf(parent)))
  {
    hide Strip, Normal, Hyphen, Upper;
  }

  lemma CollectedAppends(region: string, chain: seq<string>, code: string)
    requires chain != []
    ensures Collected(region, chain + [code]) ==
              if RegionOf(code) in Collected(region, chain) then Collected(region, chain) else Collected(region, chain) + [RegionOf(code)]
  {
    hide RegionOf, Distinct;
    var walked := [region] + Regions(chain[1..]);
    assert (chain + [code])[1..] == chain[1..] + [code];
    assert [region] + Regions((chain + [code])[1..]) == walked + [RegionOf(code)];
    DistinctAppends(walked, RegionOf(code));
  }

  lemma ChainAppends(catalog: Catalog, country: string, chain: seq<string>, parent: string)
    requires chain != [] && IsChain(catalog, country, chain) && IsParent(catalog, country, chain[|chain| - 1], parent)
    ensures IsChain(catalog, country, chain + [parent]) && Visited(chain + [parent]) == Visited(chain) + {chain[|chain| - 1]}
  {
    hide IsParent;
    var longer := chain + [parent];
    assert forall i :: 0 <= i < |chain| ==> longer[i] == chain[i];
    forall i | 0 <= i < |longer| - 1 ensures IsParent(catalog, country, longer[i], longer[i + 1]) {
      if i + 1 < |chain| {
        assert IsParent(catalog, country, chain[i], chain[i + 1]);
      }
    }
  }

  /** One more code on the chain is one pass of the loop. */
  lemma ChainPasses(catalog: Catalog, country: string, region: string, chain: seq<string>, parent: string)
    requires chain != [] && IsChain(catalog, country, chain)
    ensures var code := chain[|chain| - 1];
            IsParent(catalog, country, code, parent) ==>
              && IsChain(catalog, country, chain + [parent]) && code in catalog
              && Visited(chain + [parent]) == Visited(chain) + {code}
              && Collected(region, chain) <= Collected(region, chain + [parent])
              && Pass(catalog, country, Collected(region, chain), code) == Some((Collected(region, chain + [parent]), parent))
  {
    var code := chain[|chain| - 1];
    hide IsChain, Visited, Collected, IsParent, Parent, RegionOf;
    if IsParent(catalog, country, code, parent) {
      ParentHasRegion(catalog, country, code, parent);
      CollectedAppends(region, chain, parent);
      ChainAppends(catalog, country, chain, parent);
    }
  }

  lemma {:induction false} FindsChain(catalog: Catalog, country: string, region: string, chain: seq<string>) returns (whole: seq<string>)
    requires chain != [] && chain[0] == country + "-" + region && IsChain(catalog, country, chain)
    requires Revisits(catalog, country, Collected(region, chain), chain[|chain| - 1], Visited(chain))
    ensures ComesBack(catalog, country, region, whole)
    decreases catalog.Keys - Visited(chain)
  {
    var code := chain[|chain| - 1];
    whole := chain;
    hide Parent, Distinct, Regions, Collected, IsChain;
    if code !in Visited(chain) {
      var parent := Parent(catalog, country, code).value.0;
      ChainPasses(catalog, country, region, chain, parent);
      whole := FindsChain(catalog, country, region, chain + [parent]);
    }
  }

  lemma ChainPrefix(catalog: Catalog, country: string, region: string, chain: seq<string>, i: nat)
    requires IsChain(catalog, country, chain) && i < |chain|
    ensures IsChain(catalog, country, chain[..i + 1]) && Collected(region, chain[..i + 1]) <= Collected(region, chain)
  {
    var part, rest := chain[..i + 1], chain[i + 1..];
    assert chain[1..] == part[1..] + rest;
    assert [region] + Regions(chain[1..]) == ([region] + Regions(part[1..])) + Regions(rest);
    DistinctExtends([region] + Regions(part[1..]), Regions(rest));
  }

  /** At its end the chain is at a listed code it has visited. */
  lemma EndIsVisited(catalog: Catalog, country: string, chain: seq<string>)
    requires |chain| >= 2 && IsChain(catalog, country, chain) && chain[|chain| - 1] in chain[..|chain| - 1]
    ensures chain[|chain| - 1] in Visited(chain) && chain[|chain| - 1] in catalog
  {
    var i := |chain| - 1;
    var j :| 0 <= j < i && chain[j] == chain[i];
    assert IsParent(catalog, country, chain[j], chain[j + 1]);
    hide IsParent, IsChain;
    ParentHasRegion(catalog, country, chain[j], chain[j + 1]);
  }

  lemma RevisitsNext(catalog: Catalog, country: string, result: seq<string>, code: string, seen: set<string>, longer: seq<string>, parent: string)
    requires |result| < LIMIT && code in catalog && Pass(catalog, country, result, code) == Some((longer, parent))
    requires Revisits(catalog, country, longer, parent, seen + {code})
    ensures Revisits(catalog, country, result, code, seen)
  {
    hide Pass;
  }

  lemma ChainHasRoom(catalog: Catalog, country: string, region: string, chain: seq<string>, i: nat)
    requires ComesBack(catalog, country, region, chain) && i < |chain|
    ensures IsChain(catalog, country, chain) && IsChain(catalog, country, chain[..i + 1])
    ensures |Collected(region, chain[..i + 1])| < LIMIT
    ensures i + 1 < |chain| ==> IsParent(catalog, country, chain[i], chain[i + 1])
    ensures i + 1 == |chain| ==> chain[i] in Visited(chain) && chain[i] in catalog
  {
    hide Collected, Visited, IsParent;
    ChainPrefix(catalog, country, region, chain, i);
    EndIsVisited(catalog, country, chain);
  }

  lemma {:induction false} ChainRevisits(catalog: Catalog, country: string, region: string, chain: seq<string>, i: nat)
    requires ComesBack(catalog, country, region, chain) && i < |chain|
    ensures var part := chain[..i + 1]; Revisits(catalog, country, Collected(region, part), chain[i], Visited(part))
    decreases |chain| - i
  {
    var part := chain[..i + 1];
    ChainHasRoom(catalog, country, region, chain, i);
    if i == |chain| - 1 {
      assert part == chain;
      hide Collected, Visited, IsChain, IsParent, ComesBack;
    } else {
      var longer := chain[..i + 2];
      assert longer == part + [chain[i + 1]] && part[|part| - 1] == chain[i];
      hide *;
      ChainPasses(catalog, country, region, part, chain[i + 1]);
      ChainRevisits(catalog, country, region, chain, i + 1);
      RevisitsNext(catalog, country, Collected(region, part), chain[i], Visited(part), Collected(region, longer), chain[i + 1]);
    }
  }

  lemma ChainStarts(catalog: Catalog, country: string, region: string, code: string)
    ensures Collected(region, [code]) == [region] && Visited([code]) == {} && IsChain(catalog, country, [code])
  {
    assert [code][1..] == [] && Regions([]) == [] && [region] + [] == [region];
    assert [region][..0] == [] && Distinct([region]) == [region];
  }

  /** The loop runs for ever exactly when the chain of same-country parents comes back to one
      of its codes before five distinct regions are collected. */
  lemma NeverEndsOnCycles(catalog: Catalog, country: string, region: string)
    ensures NeverEnds(catalog, country, region) <==> exists chain :: ComesBack(catalog, country, region, chain)
  {
    var start := [country + "-" + region];
    ChainStarts(catalog, country, region, start[0]);
    hide Revisits, Collected, Visited, IsChain, ComesBack;
    if NeverEnds(catalog, country, region) {
      var chain := FindsChain(catalog, country, region, start);
    }
    forall chain | ComesBack(catalog, country, region, chain) ensures NeverEnds(catalog, country, region) {
      ComesBackFrom(catalog, country, region, chain);
      ChainRevisits(catalog, country, region, chain, 0);
      assert chain[..1] == start;
    }
  }

  lemma ComesBackFrom(catalog: Catalog, country: string, region: string, chain: seq<string>)
    requires ComesBack(catalog, country, region, chain)
    ensures |chain| >= 2 && chain[0] == country + "-" + region
  {
  }

  lemma ComingBackIsCycle(catalog: Catalog, country: string, region: string, chain: seq<string>) returns (cycle: seq<string>)
    requires ComesBack(catalog, country, region, chain)
    ensures |cycle| >= 2 && IsChain(catalog, country, cycle) && cycle[0] == cycle[|cycle| - 1]
  {
    var last := |chain| - 1;
    var j :| 0 <= j < last && chain[j] == chain[last];
    cycle := chain[j..];
    forall k | 0 <= k < |cycle| - 1 ensures IsParent(catalog, country, cycle[k], cycle[k + 1]) {
      assert IsParent(catalog, country, chain[j + k], chain[j + k + 1]);
    }
  }

  /** So it ends on every catalog whose parent relation is acyclic. */
  lemma AcyclicEnds(catalog: Catalog, country: string, region: string)
    requires Acyclic(catalog, country)
    ensures !NeverEnds(catalog, country, region)
  {
    NeverEndsOnCycles(catalog, country, region);
    if chain :| ComesBack(catalog, country, region, chain) {
      var cycle := ComingBackIsCycle(catalog, country, region, chain);
      assert false;
    }
  }

  const SELF: Catalog := map["XX-A" := "XX-A"]

  lemma SelfIsParent()
    ensures Parent(SELF, "XX", "XX-A") == Some(("XX-A", "A"))
  {
    assert Strip("XX-A") == "XX-A" && Strip("A") == "A";
    assert Hyphen("XX-A") == 2;
    assert Upper("XX") == "XX" && Upper("A") == "A";
    assert "XX-A"[..2] == "XX" && "XX-A"[3..] == "A";
  }

  /** A code that is its own parent keeps the loop running: the length guard alone does not
      end it. */
  lemma SelfParentNeverEnds()
    ensures NeverEnds(SELF, "XX", "A")
  {
    SelfIsParent();
    hide Parent;
    assert "XX" + "-" + "A" == "XX-A";
    assert Pass(SELF, "XX", ["A"], "XX-A") == Some((["A"], "XX-A"));
  }

  // ------------------------------------------------------------------ the loop

  /** What the walk keeps: the ancestors still to come complete the ones walked, and no code
      is going to come twice while there is room. */
  ghost predicate Walking(catalog: Catalog, country: string, seen: set<string>, code: string, walked: seq<string>, all: seq<string>) {
    all == walked + Ancestors(catalog, country, code, seen) && !Revisits(catalog, country, Distinct(walked), code, seen)
  }

  lemma WalksOn(catalog: Catalog, country: string, seen: set<string>, code: string, walked: seq<string>, all: seq<string>)
    requires Walking(catalog, country, seen, code, walked, all) && |Distinct(walked)| < LIMIT
    ensures code in catalog ==> code !in seen
    ensures var up := Parent(catalog, country, code);
            if up.None? then all == walked
            else Walking(catalog, country, seen + {code}, up.value.0, walked + [up.value.1], all)
  {
    var up := Parent(catalog, country, code);
    ParentIsListed(catalog, country, code);
    hide Parent, Distinct;
    if up.Some? {
      DistinctAppends(walked, up.value.1);
      assert all == walked + [up.value.1] + Ancestors(catalog, country, up.value.0, seen + {code});
    }
  }

  method ParentOf(catalog: Catalog, country: string, code: string) returns (up: Option<(string, string)>)
    requires code in catalog
    ensures up == Parent(catalog, country, code)
  {
    var parent := Strip(catalog[code]);
    var k := Hyphen(parent);
    if k == |parent| {
      return None;
    }
    var parentCountry, parentRegion := parent[..k], Normal(parent[k + 1..]);
    if Upper(parentCountry) != country || parentRegion == "" {
      return None;
    }
    up := Some((parent, parentRegion));
  }

  /** Once the walk has ended or the list is full, the codes collected are the selection. */
  lemma WalkEnds(catalog: Catalog, country: string, region: string, walked: seq<string>, code: string, seen: set<string>)
    requires Walking(catalog, country, seen, code, walked, [region] + Ancestors(catalog, country, country + "-" + region, {}))
    requires |Distinct(walked)| == LIMIT || (|Distinct(walked)| < LIMIT && Parent(catalog, country, code).None?)
    ensures Distinct(walked) == Selection(catalog, country, region)
  {
    var all := [region] + Ancestors(catalog, country, country + "-" + region, {});
    DistinctExtends(walked, all[|walked|..]);
    assert walked + all[|walked|..] == all;
    if |Distinct(walked)| < LIMIT {
      WalksOn(catalog, country, seen, code, walked, all);
    }
  }

  /** The loop, for every catalog and region on which it ends: each pass visits a new code. */
  method Collect(catalog: Catalog, country: string, region: string) returns (result: seq<string>)
    requires !NeverEnds(catalog, country, region)
    ensures result == Selection(catalog, country, region)
  {
    result := [region];
    var code := country + "-" + region;
    ghost var all, walked, seen: set<string> := [region] + Ancestors(catalog, country, code, {}), [region], {};
    assert Distinct([region]) == [region];
    hide Ancestors, Parent, Distinct, Revisits, Selection;
    while code in catalog && |result| < LIMIT
      invariant Walking(catalog, country, seen, code, walked, all)
      invariant result == Distinct(walked) && |result| <= LIMIT
      decreases catalog.Keys - seen
    {
      WalksOn(catalog, country, seen, code, walked, all);
      var up := ParentOf(catalog, country, code);
      if up.None? {
        break;
      }
      var (parent, parentRegion) := up.value;
      DistinctAppends(walked, parentRegion);
      if parentRegion !in result {
        result := result + [parentRegion];
      }
      walked, seen, code := walked + [parentRegion], seen + {code}, parent;
    }
    ParentIsListed(catalog, country, code);
    WalkEnds(catalog, country, region, walked, code, seen);
  }

  method SubdivisionSelector(catalog: Catalog, countryCode: string, regionCode: string) returns (selector: string)
    requires Normal(countryCode) == "" || Normal(regionCode) == "" || !NeverEnds(catalog, Normal(countryCode), Normal(regionCode))
    ensures selector == Selector(catalog, countryCode, regionCode)
  {
    var country, region := Normal(countryCode), Normal(regionCode);
    if country == "" || region == "" {
      return region;
    }
    var result := Collect(catalog, country, region);
    selector := Join(result);
  }

  // ------------------------------------------------------------------ what it returns

  /** The selector starts with the requested code, never repeats one, holds at most five, and
      the rest are same-country ancestors; none is missing while there is room. */
  lemma SelectionIsAncestry(catalog: Catalog, country: string, region: string)
    ensures var picked := Selection(catalog, country, region);
            var ancestors := Ancestors(catalog, country, country + "-" + region, {});
            && 1 <= |picked| <= LIMIT && picked[0] == region
            && (forall i, j :: 0 <= i < j < |picked| ==> picked[i] != picked[j])
            && (forall i :: 1 <= i < |picked| ==> picked[i] in ancestors)
            && (|picked| < LIMIT ==> forall x :: x in ancestors ==> x in picked)
  {
    var ancestors := Ancestors(catalog, country, country + "-" + region, {});
    DistinctExtends([region], ancestors);
    assert Distinct([region]) == [region];
    var all := Distinct([region] + ancestors);
    forall i | 1 <= i < |all| ensures all[i] in ancestors {
      assert all[i] in [region] + ancestors && all[i] != all[0];
    }
  }

  /** The regions listed are those of a chain of parents that starts at the requested code. */
  lemma {:induction false} AncestorsFollowParents(catalog: Catalog, country: string, code: string, seen: set<string>) returns (chain: seq<string>)
    ensures |chain| == |Ancestors(catalog, country, code, seen)| + 1 && chain[0] == code && IsChain(catalog, country, chain)
    ensures forall i :: 0 <= i < |chain| - 1 ==>
              Parent(catalog, country, chain[i]) == Some((chain[i + 1], Ancestors(catalog, country, code, seen)[i]))
    decreases catalog.Keys - seen
  {
    chain := [code];
    var parent := Parent(catalog, country, code);
    if parent.Some? && code !in seen {
      var rest := AncestorsFollowParents(catalog, country, parent.value.0, seen + {code});
      chain := [code] + rest;
      assert forall i :: 1 <= i < |chain| - 1 ==> chain[i] == rest[i - 1] && chain[i + 1] == rest[i];
    }
  }
}
