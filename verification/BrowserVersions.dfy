/** The paged download of the browser-version list (`fetch_browser_versions` in
    control/browser_catalog.py). */
module BrowserVersions {
  import opened Wrappers

  const MAX_PAGES: nat := 20
  const PAGE_SIZE: nat := 100

  /** One answer of the upstream: an envelope with an optional total, a bare list, or neither. */
  datatype Page<Row> = Envelope(rows: seq<Row>, total: Option<nat>) | Listing(rows: seq<Row>) | Broken

  /** Row check and page digest. */
  datatype Rules<!Row> = Rules(clean: Row -> Option<Row>, digest: seq<Row> -> string)

  function Total<Row>(p: Page<Row>): Option<nat> {
    if p.Envelope? then p.total else None
  }

  // ------------------------------------------------------------------ what a complete list is

  /** Rows of the first `n` pages. */
  function Gathered<Row>(pages: seq<Page<Row>>, n: nat): seq<Row>
    requires n <= |pages| && forall i :: 0 <= i < n ==> !pages[i].Broken?
  {
    if n == 0 then [] else Gathered(pages, n - 1) + pages[n - 1].rows
  }

  /** The first total declared among the first `n` pages. */
  function Expected<Row>(pages: seq<Page<Row>>, n: nat): Option<nat>
    requires n <= |pages|
  {
    if n == 0 then None
    else
      var before := Expected(pages, n - 1);
      if before.Some? then before else Total(pages[n - 1])
  }

  /** Page `k` can follow the pages before it. */
  predicate Follows<Row>(rules: Rules<Row>, pages: seq<Page<Row>>, k: nat)
    requires k < |pages| && forall i :: 0 <= i <= k ==> !pages[i].Broken?
  {
    var rows := pages[k].rows;
    var gathered := |Gathered(pages, k + 1)|;
    var expected := Expected(pages, k + 1);
    && |rows| <= PAGE_SIZE && gathered <= PAGE_SIZE * MAX_PAGES
    && (Total(pages[k]).Some? ==> Total(pages[k]).value <= MAX_PAGES * PAGE_SIZE && Total(pages[k]) == expected)
    && (rows != [] ==> forall i :: 0 <= i < k ==> rules.digest(pages[i].rows) != rules.digest(rows))
    && (forall i :: 0 <= i < |rows| ==> rules.clean(rows[i]).Some?)
    && (expected.Some? ==> gathered <= expected.value && (rows == [] ==> gathered == expected.value))
  }

  predicate Done<Row>(pages: seq<Page<Row>>, k: nat)
    requires k < |pages| && forall i :: 0 <= i <= k ==> !pages[i].Broken?
  {
    var expected := Expected(pages, k + 1);
    if expected.Some? then |Gathered(pages, k + 1)| == expected.value else |pages[k].rows| < PAGE_SIZE
  }

  /** The list is complete after the first `n` pages, and not before. */
  predicate Complete<Row>(rules: Rules<Row>, pages: seq<Page<Row>>, n: nat) {
    && 1 <= n <= MAX_PAGES && n <= |pages|
    && (forall i :: 0 <= i < n ==> !pages[i].Broken?)
    && (forall k :: 0 <= k < n ==> Follows(rules, pages, k))
    && (forall k :: 0 <= k < n - 1 ==> !Done(pages, k))
    && Done(pages, n - 1) && Gathered(pages, n) != []
  }

  function Cleaned<Row>(rules: Rules<Row>, rows: seq<Row>): seq<Row>
    requires forall i :: 0 <= i < |rows| ==> rules.clean(rows[i]).Some?
  {
    seq(|rows|, i requires 0 <= i < |rows| => rules.clean(rows[i]).value)
  }

  lemma {:induction false} GatheredIsClean<Row>(rules: Rules<Row>, pages: seq<Page<Row>>, n: nat)
    requires n <= |pages| && (forall i :: 0 <= i < n ==> !pages[i].Broken?)
    requires forall k :: 0 <= k < n ==> Follows(rules, pages, k)
    ensures forall i :: 0 <= i < |Gathered(pages, n)| ==> rules.clean(Gathered(pages, n)[i]).Some?
  {
    if n > 0 {
      GatheredIsClean(rules, pages, n - 1);
      assert Follows(rules, pages, n - 1);
    }
  }

  lemma {:induction false} ExpectedIsDeclared<Row>(pages: seq<Page<Row>>, n: nat, k: nat)
    requires k < n <= |pages| && Total(pages[k]).Some?
    ensures Expected(pages, n).Some? && Expected(pages, n) == Expected(pages, k + 1)
  {
    if k + 1 < n {
      ExpectedIsDeclared(pages, n - 1, k);
    }
  }

  /** A list that is accepted holds as many rows as any page declared, repeats no page that
      has rows, stays within the limits, and, if nothing was declared, ends with the first
      page that is not full. */
  lemma CompleteListsAreWhole<Row>(rules: Rules<Row>, pages: seq<Page<Row>>, n: nat)
    requires Complete(rules, pages, n)
    ensures 1 <= |Gathered(pages, n)| <= MAX_PAGES * PAGE_SIZE
    ensures forall k :: 0 <= k < n && Total(pages[k]).Some? ==> |Gathered(pages, n)| == Total(pages[k]).value
    ensures forall i, k :: 0 <= i < k < n && pages[k].rows != [] ==> pages[i].rows != pages[k].rows
    ensures (forall k :: 0 <= k < n ==> Total(pages[k]).None?) ==>
              |pages[n - 1].rows| < PAGE_SIZE && forall k :: 0 <= k < n - 1 ==> |pages[k].rows| == PAGE_SIZE
  {
    assert Follows(rules, pages, n - 1);
    forall k | 0 <= k < n && Total(pages[k]).Some? ensures |Gathered(pages, n)| == Total(pages[k]).value {
      ExpectedIsDeclared(pages, n, k);
      assert Follows(rules, pages, k);
    }
    forall i, k | 0 <= i < k < n && pages[k].rows != [] ensures pages[i].rows != pages[k].rows {
      assert Follows(rules, pages, k);
    }
    if forall k :: 0 <= k < n ==> Total(pages[k]).None? {
      NothingExpected(pages, n);
      forall k | 0 <= k < n - 1 ensures |pages[k].rows| == PAGE_SIZE {
        NothingExpected(pages, k + 1);
        assert Follows(rules, pages, k) && !Done(pages, k);
      }
    }
  }

  lemma {:induction false} NothingExpected<Row>(pages: seq<Page<Row>>, n: nat)
    requires n <= |pages| && forall k :: 0 <= k < n ==> Total(pages[k]).None?
    ensures Expected(pages, n).None?
  {
    if n > 0 {
      NothingExpected(pages, n - 1);
    }
  }

  // ------------------------------------------------------------------ the loop

  ghost predicate SoFar<Row>(rules: Rules<Row>, pages: seq<Page<Row>>, n: nat) {
    && n <= |pages| && (forall i :: 0 <= i < n ==> !pages[i].Broken?)
    && (forall k :: 0 <= k < n ==> Follows(rules, pages, k) && !Done(pages, k))
  }

  /** Once a page cannot follow, or the pages ran out, no list is complete. */
  lemma NeverComplete<Row>(rules: Rules<Row>, pages: seq<Page<Row>>, n: nat)
    requires SoFar(rules, pages, n)
    requires n >= MAX_PAGES || n >= |pages| || pages[n].Broken? || !Follows(rules, pages, n) ||
             (Done(pages, n) && Gathered(pages, n + 1) == [])
    ensures forall m: nat :: !Complete(rules, pages, m)
  {
  }

  /** `pages` is what the upstream would answer to each request in turn. */
  method FetchBrowserVersions<Row(==)>(rules: Rules<Row>, pages: seq<Page<Row>>) returns (result: Option<seq<Row>>)
    requires |pages| >= MAX_PAGES
    ensures result.Some? <==> exists n: nat :: Complete(rules, pages, n)
    ensures forall n: nat :: Complete(rules, pages, n) ==>
              (forall i :: 0 <= i < |Gathered(pages, n)| ==> rules.clean(Gathered(pages, n)[i]).Some?) &&
              result == Some(Cleaned(rules, Gathered(pages, n)))
  {
    var rows: seq<Row> := [];
    var seen: set<string> := {};
    var expected: Option<nat> := None;
    var page := 0;
    while page < MAX_PAGES
      invariant page <= MAX_PAGES && SoFar(rules, pages, page)
      invariant (forall i :: 0 <= i < |Gathered(pages, page)| ==> rules.clean(Gathered(pages, page)[i]).Some?) &&
                rows == Cleaned(rules, Gathered(pages, page))
      invariant expected == Expected(pages, page)
      invariant seen == set i | 0 <= i < page :: rules.digest(pages[i].rows)
    {
      var accepted := false;
      if !pages[page].Broken? {
        var total := Total(pages[page]);
        var news := pages[page].rows;
        if total.Some? && expected.None? {
          expected := total;
        }
        accepted := AcceptPage(rules, news, total, expected, |rows|, rules.digest(news) in seen);
      }
      assert pages[page].Broken? || (accepted <==> Follows(rules, pages, page));
      if !accepted {
        NeverComplete(rules, pages, page);
        return None;
      }
      rows := rows + Cleaned(rules, pages[page].rows);
      seen := seen + {rules.digest(pages[page].rows)};
      GatheredIsClean(rules, pages, page + 1);
      assert rows == Cleaned(rules, Gathered(pages, page + 1));
      var done := if expected.Some? then |rows| == expected.value else |pages[page].rows| < PAGE_SIZE;
      assert done == Done(pages, page);
      if done {
        if rows == [] {
          NeverComplete(rules, pages, page);
          return None;
        }
        assert Complete(rules, pages, page + 1);
        OneComplete(rules, pages, page + 1);
        return Some(rows);
      }
      page := page + 1;
    }
    NeverComplete(rules, pages, page);
    result := None;
  }

  lemma OneComplete<Row>(rules: Rules<Row>, pages: seq<Page<Row>>, n: nat)
    requires Complete(rules, pages, n)
    ensures forall m: nat :: Complete(rules, pages, m) ==> m == n
  {
  }

  /** The checks on one page. */
  method AcceptPage<Row(==)>(rules: Rules<Row>, news: seq<Row>, total: Option<nat>, expected: Option<nat>, before: nat, repeated: bool)
      returns (accepted: bool)
    ensures accepted <==>
              && |news| <= PAGE_SIZE && before + |news| <= PAGE_SIZE * MAX_PAGES
              && (total.Some? ==> total.value <= MAX_PAGES * PAGE_SIZE && total == expected)
              && (news != [] ==> !repeated)
              && (forall i :: 0 <= i < |news| ==> rules.clean(news[i]).Some?)
              && (expected.Some? ==> before + |news| <= expected.value && (news == [] ==> before + |news| == expected.value))
  {
    if total.Some? && (total.value > MAX_PAGES * PAGE_SIZE || total != expected) {
      return false;
    }
    if |news| > PAGE_SIZE || before + |news| > PAGE_SIZE * MAX_PAGES {
      return false;
    }
    if news != [] && repeated {
      return false;
    }
    for i := 0 to |news|
      invariant forall k :: 0 <= k < i ==> rules.clean(news[k]).Some?
    {
      if rules.clean(news[i]).None? {
        return false;
      }
    }
    if expected.Some? && (before + |news| > expected.value || (news == [] && before < expected.value)) {
      return false;
    }
    accepted := true;
  }
}
