/** The subdivision selector of P3 (control/p3_routing.py): the requested region first, then
    its ISO 3166-2 parents in the same country as fallbacks, at most five codes.

    `Catalog` is the subdivision catalog: a listed code with its parent code, empty for none.
    Letters are ASCII. */
module P3Routing {
  import opened Wrappers
  import opened Sequences

  type Catalog = map<string, string>

  const LIMIT: nat := 5

  // ------------------------------------------------------------------ text

  predicate IsSpace(c: char) {
    c == ' ' || c == '\t' || c == '\n' || c == '\r'
  }

  function Strip(s: string): string
    decreases |s|
  {
    if s == "" then s
    else if IsSpace(s[0]) then Strip(s[1..])
    else if IsSpace(s[|s| - 1]) then Strip(s[..|s| - 1])
    else s
  }

  function Upper(s: string): string {
    seq(|s|, i requires 0 <= i < |s| => if 'a' <= s[i] <= 'z' then (s[i] as int - 32) as char else s[i])
  }

  function Normal(s: string): string {
    Upper(Strip(s))
  }

  lemma {:induction false} StripUpper(s: string)
    ensures Strip(Upper(s)) == Upper(Strip(s))
    decreases |s|
  {
    if s != "" {
      if IsSpace(s[0]) {
        StripUpper(s[1..]);
        assert Upper(s)[1..] == Upper(s[1..]);
      } else if IsSpace(s[|s| - 1]) {
        StripUpper(s[..|s| - 1]);
        assert Upper(s)[..|s| - 1] == Upper(s[..|s| - 1]);
      }
    }
  }

  /** Position of the first hyphen, or the length. */
  function Hyphen(s: string): (k: nat)
    ensures k <= |s| && (k < |s| ==> s[k] == '-') && forall i :: 0 <= i < k ==> s[i] != '-'
  {
    if s == "" || s[0] == '-' then 0 else 1 + Hyphen(s[1..])
  }

  function Join(codes: seq<string>): string {
    if codes == [] then "" else if |codes| == 1 then codes[0] else Join(codes[..|codes| - 1]) + "," + codes[|codes| - 1]
  }

  // ------------------------------------------------------------------ the parent relation

  /** The region of a parent code in the same country; `None` when the walk ends here. */
  function ParentRegion(country: string, parent: string): Option<string> {
    var k := Hyphen(parent);
    if k == |parent| then None
    else
      var region := Normal(parent[k + 1..]);
      if Upper(parent[..k]) != country || region == "" then None else Some(region)
  }

  /** The same-country parent code of a listed code, with its region. */
  function Parent(catalog: Catalog, country: string, code: string): Option<(string, string)> {
    if code !in catalog then None
    else
      var parent := Strip(catalog[code]);
      match ParentRegion(country, parent)
      case None => None
      case Some(region) => Some((parent, region))
  }

  /** Codes that are each the same-country parent of the one before. */
  ghost predicate IsChain(catalog: Catalog, country: string, chain: seq<string>) {
    forall i :: 0 <= i < |chain| - 1 ==> IsParent(catalog, country, chain[i], chain[i + 1])
  }

  predicate IsParent(catalog: Catalog, country: string, code: string, parent: string) {
    Parent(catalog, country, code).Some? && Parent(catalog, country, code).value.0 == parent
  }

  ghost predicate Acyclic(catalog: Catalog, country: string) {
    forall chain: seq<string> | |chain| >= 2 && IsChain(catalog, country, chain) :: chain[0] != chain[|chain| - 1]
  }

  /** Regions of the ancestors of `code`, nearest first; `seen` cuts cycles. */
  function Ancestors(catalog: Catalog, country: string, code: string, seen: set<string>): seq<string>
    decreases catalog.Keys - seen
  {
    match Parent(catalog, country, code)
    case None => []
    case Some((parent, region)) => if code in seen then [] else [region] + Ancestors(catalog, country, parent, seen + {code})
  }

  function Selection(catalog: Catalog, country: string, region: string): seq<string> {
    Take(Distinct([region] + Ancestors(catalog, country, country + "-" + region, {})), LIMIT)
  }

  /** `p3_subdivision_selector`. */
  function Selector(catalog: Catalog, countryCode: string, regionCode: string): string {
    var country, region := Normal(countryCode), Normal(regionCode);
    if country == "" || region == "" then region else Join(Selection(catalog, country, region))
  }
}
