/** Which code is the parent of another, and in which order the selector lists the regions. */
module P3RoutingOrder {
  import opened Wrappers
  import opened Sequences
  import opened P3Routing
  import opened Trimming

  // ------------------------------------------------------------------ parents

  /** The text around the first hyphen. */
  predicate IsCut(s: string, country: string, region: string) {
    '-' !in country && s == country + "-" + region
  }

  lemma CutAt(s: string, k: nat)
    requires k < |s| && s[k] == '-'
    ensures s == s[..k] + "-" + s[k + 1..]
  {
    assert s[k..k + 1] == "-";
    assert s == s[..k] + s[k..k + 1] + s[k + 1..];
  }

  lemma CutAtHyphen(s: string)
    ensures var k := Hyphen(s);
            if '-' in s then k < |s| && IsCut(s, s[..k], s[k + 1..]) else k == |s|
  {
    hide Hyphen;
    var k := Hyphen(s);
    if k < |s| {
      CutAt(s, k);
    }
  }

  lemma OneCut(s: string, a: string, b: string)
    requires IsCut(s, a, b)
    ensures Hyphen(s) == |a| < |s| && s[..|a|] == a && s[|a| + 1..] == b
  {
    hide Hyphen;
    var k := Hyphen(s);
    assert s[|a|] == '-';
    assert k < |s|;
    assert forall i | 0 <= i < |a| :: s[i] == a[i];
  }

  /** The region of a parent code in the country. */
  ghost predicate NamesParent(country: string, parent: string, region: string) {
    exists a, b :: IsCut(parent, a, b) && Upper(a) == country && !IsBlank(b) && region == Upper(Strip(b))
  }

  lemma RegionExactly(country: string, parent: string, region: string)
    ensures ParentRegion(country, parent) == Some(region) <==> NamesParent(country, parent, region)
  {
    hide Hyphen, Strip, Upper, IsBlank, IsCut;
    var k := Hyphen(parent);
    CutAtHyphen(parent);
    if k < |parent| {
      var a, b := parent[..k], parent[k + 1..];
      StripTrims(b);
      UpperBlank(Strip(b));
      assert IsCut(parent, a, b);
    }
    forall a, b | IsCut(parent, a, b) ensures k < |parent| && a == parent[..k] && b == parent[k + 1..] {
      OneCut(parent, a, b);
      HyphenIn(parent, a, b);
    }
  }

  lemma HyphenIn(s: string, a: string, b: string)
    requires IsCut(s, a, b)
    ensures '-' in s
  {
    assert s[|a|] == '-';
  }

  lemma UpperBlank(s: string)
    ensures Upper(s) == "" <==> s == ""
  {
  }

  /** A code is the parent exactly when the catalog lists it, trimmed, for the code, with the same
      country before its first hyphen and a region after it; the region is trimmed and in upper
      case. */
  lemma ParentExactly(catalog: Catalog, country: string, code: string, parent: string, region: string)
    ensures Parent(catalog, country, code) == Some((parent, region)) <==>
              code in catalog && IsTrimmed(catalog[code], parent) && NamesParent(country, parent, region)
  {
    RegionExactly(country, parent, region);
    hide Strip, IsTrimmed, NamesParent, ParentRegion;
    if code in catalog {
      StripTrims(catalog[code]);
      OneTrimming(catalog[code], parent, Strip(catalog[code]));
    }
  }

  // ------------------------------------------------------------------ the order of the list

  /** `x` first comes at `a`. */
  predicate FirstAt(xs: seq<string>, x: string, a: nat) {
    a < |xs| && xs[a] == x && forall b | 0 <= b < a :: xs[b] != x
  }

  lemma {:induction false} FirstPlace(xs: seq<string>, x: string) returns (a: nat)
    requires x in xs
    ensures FirstAt(xs, x, a)
    decreases |xs|
  {
    var n := |xs| - 1;
    if x in xs[..n] {
      a := FirstPlace(xs[..n], x);
    } else {
      a := n;
      assert forall b | 0 <= b < n :: xs[b] in xs[..n];
    }
  }

  /** Distinct entries keep the order of their first appearance. */
  lemma {:induction false} DistinctInOrder(xs: seq<string>, i: nat, j: nat, a: nat, b: nat)
    requires i < |Distinct(xs)| && j < |Distinct(xs)| && FirstAt(xs, Distinct(xs)[i], a) && FirstAt(xs, Distinct(xs)[j], b)
    ensures i < j ==> a < b
    decreases |xs|
  {
    var n := |xs| - 1;
    var before := xs[..n];
    var ys := Distinct(before);
    assert forall k | 0 <= k < n :: before[k] == xs[k];
    if i < j {
      assert ys[i] in before;
      assert FirstAt(before, ys[i], a) by {
        var k := FirstPlace(before, ys[i]);
        assert !(a < k) && !(k < a);
      }
      if j < |ys| {
        assert FirstAt(before, ys[j], b) by {
          assert ys[j] in before;
          var k := FirstPlace(before, ys[j]);
          assert !(b < k) && !(k < b);
        }
        DistinctInOrder(before, i, j, a, b);
      }
    }
  }

  /** The selector lists the requested region and then the regions of its ancestors by first
      appearance, nearest first; what a full list leaves out comes later than all it has. */
  lemma SelectionInOrder(catalog: Catalog, country: string, region: string)
    ensures var picked, all := Selection(catalog, country, region), [region] + Ancestors(catalog, country, country + "-" + region, {});
            && (forall i: nat, j: nat, a: nat, b: nat | i < j < |picked| && FirstAt(all, picked[i], a) && FirstAt(all, picked[j], b) :: a < b)
            && (forall i: nat, x, a: nat, b: nat | i < |picked| && x !in picked && FirstAt(all, picked[i], a) && FirstAt(all, x, b) :: a < b)
  {
    var all := [region] + Ancestors(catalog, country, country + "-" + region, {});
    var picked, whole := Selection(catalog, country, region), Distinct(all);
    hide Ancestors, Distinct;
    forall i: nat, j: nat, a: nat, b: nat | i < j < |picked| && FirstAt(all, picked[i], a) && FirstAt(all, picked[j], b) ensures a < b {
      DistinctInOrder(all, i, j, a, b);
    }
    forall i: nat, x, a: nat, b: nat | i < |picked| && x !in picked && FirstAt(all, picked[i], a) && FirstAt(all, x, b) ensures a < b {
      assert x in all;
      var j :| 0 <= j < |whole| && whole[j] == x;
      assert forall k | 0 <= k < |picked| :: picked[k] == whole[k];
      DistinctInOrder(all, i, j, a, b);
    }
  }

  /** The list is joined with commas. */
  lemma {:induction false} JoinSplits(codes: seq<string>, n: nat)
    requires 0 < n < |codes|
    ensures Join(codes) == Join(codes[..n]) + "," + Join(codes[n..])
    decreases |codes|
  {
    var m := |codes| - 1;
    if n < m {
      JoinSplits(codes[..m], n);
      assert codes[..m][..n] == codes[..n] && codes[..m][n..] == codes[n..m];
      assert codes[n..][..|codes| - n - 1] == codes[n..m] && codes[n..][|codes| - n - 1] == codes[m];
      assert (Join(codes[..n]) + "," + Join(codes[n..m])) + "," + codes[m] == Join(codes[..n]) + "," + (Join(codes[n..m]) + "," + codes[m]);
    } else {
      assert codes[n..] == [codes[m]];
    }
  }
}
