/** The rewrite of the managed crontab block (`replace_managed_block` in
    deploy/install_ys_catalog_cron.py), for text whose only line break is the newline. */
module ManagedCron {
  import Routing = P3Routing

  const BEGIN := "# BEGIN managed-warrior-ys-catalog-sync"
  const END := "# END managed-warrior-ys-catalog-sync"

  datatype Rewrite = InvalidFragment | Ambiguous | Rewritten(text: string)

  // ------------------------------------------------------------------ lines

  /** Length of the first line with its newline. */
  function FirstLine(s: string): (k: nat)
    requires s != ""
    ensures 1 <= k <= |s| && (forall i :: 0 <= i < k - 1 ==> s[i] != '\n') && (k < |s| ==> s[k - 1] == '\n')
  {
    if s[0] == '\n' || |s| == 1 then 1 else 1 + FirstLine(s[1..])
  }

  /** `splitlines(keepends=True)`. */
  function Lines(s: string): seq<string>
    decreases |s|
  {
    if s == "" then [] else [s[..FirstLine(s)]] + Lines(s[FirstLine(s)..])
  }

  function Concat(ls: seq<string>): string {
    if ls == [] then "" else ls[0] + Concat(ls[1..])
  }

  /** Empty, or ending with a newline. */
  predicate Closed(s: string) {
    s == "" || s[|s| - 1] == '\n'
  }

  lemma {:induction false} ConcatOfLines(s: string)
    ensures Concat(Lines(s)) == s
    decreases |s|
  {
    if s != "" {
      ConcatOfLines(s[FirstLine(s)..]);
    }
  }

  lemma {:induction false} LinesAppend(a: string, b: string)
    requires Closed(a)
    ensures Lines(a + b) == Lines(a) + Lines(b)
    decreases |a|
  {
    if a == "" {
      assert a + b == b;
    } else {
      var k := FirstLine(a);
      FirstLineAppends(a, b);
      assert (a + b)[k..] == a[k..] + b && (a + b)[..k] == a[..k];
      LinesAppend(a[k..], b);
      assert [a[..k]] + (Lines(a[k..]) + Lines(b)) == [a[..k]] + Lines(a[k..]) + Lines(b);
    }
  }

  lemma {:induction false} FirstLineAppends(a: string, b: string)
    requires a != "" && Closed(a)
    ensures FirstLine(a + b) == FirstLine(a)
    decreases |a|
  {
    if a[0] != '\n' && |a| > 1 {
      assert (a + b)[1..] == a[1..] + b;
      FirstLineAppends(a[1..], b);
    }
  }

  lemma {:induction false} ConcatAppends(a: seq<string>, b: seq<string>)
    ensures Concat(a + b) == Concat(a) + Concat(b)
    decreases |a|
  {
    if a == [] {
      assert a + b == b;
    } else {
      assert (a + b)[1..] == a[1..] + b;
      ConcatAppends(a[1..], b);
    }
  }

  lemma {:induction false} SingleLine(s: string)
    requires s != "" && forall i :: 0 <= i < |s| - 1 ==> s[i] != '\n'
    ensures FirstLine(s) == |s| && Lines(s) == [s]
  {
    if |s| > 1 {
      SingleLine(s[1..]);
    }
    assert s[..|s|] == s;
  }

  /** A line breaks only at its end. */
  predicate Line(s: string) {
    s != "" && forall i :: 0 <= i < |s| - 1 ==> s[i] != '\n'
  }

  /** Lines, of which only the last may lack its newline. */
  ghost predicate Lined(ls: seq<string>) {
    && (forall i :: 0 <= i < |ls| ==> Line(ls[i]))
    && (forall i :: 0 <= i < |ls| - 1 ==> Closed(ls[i]))
  }

  lemma {:induction false} LinesAreLined(s: string)
    ensures Lined(Lines(s))
    decreases |s|
  {
    if s != "" {
      var k := FirstLine(s);
      LinesAreLined(s[k..]);
      assert Line(s[..k]) && (k < |s| ==> Closed(s[..k]));
      assert Lines(s)[1..] == Lines(s[k..]);
    }
  }

  lemma {:induction false} LinesOfConcat(ls: seq<string>)
    requires Lined(ls)
    ensures Lines(Concat(ls)) == ls
    decreases |ls|
  {
    if |ls| == 1 {
      SingleLine(ls[0]);
      assert Concat(ls) == ls[0] + "" == ls[0];
    } else if ls != [] {
      LinesOfConcat(ls[1..]);
      SingleLine(ls[0]);
      LinesAppend(ls[0], Concat(ls[1..]));
    }
  }

  // ------------------------------------------------------------------ markers

  predicate Marks(line: string, marker: string) {
    Routing.Strip(line) == marker
  }

  /** Positions of the marker lines, in order. */
  function Positions(ls: seq<string>, marker: string): (r: seq<nat>)
    ensures forall i: nat :: i in r <==> i < |ls| && Marks(ls[i], marker)
  {
    if ls == [] then []
    else
      var n := |ls| - 1;
      Positions(ls[..n], marker) + (if Marks(ls[n], marker) then [n] else [])
  }

  /** Exactly one marker of each kind, in order. */
  predicate OneBlock(ls: seq<string>) {
    var b, e := Positions(ls, BEGIN), Positions(ls, END);
    |b| == 1 && |e| == 1 && b[0] < e[0]
  }

  function BeginAt(ls: seq<string>): (b: nat)
    requires OneBlock(ls)
    ensures b < EndAt(ls) < |ls|
  {
    assert Positions(ls, END)[0] in Positions(ls, END);
    Positions(ls, BEGIN)[0]
  }

  function EndAt(ls: seq<string>): (e: nat)
    requires OneBlock(ls)
    ensures e < |ls|
  {
    assert Positions(ls, END)[0] in Positions(ls, END);
    Positions(ls, END)[0]
  }

  // ------------------------------------------------------------------ the rewrite

  function RStripNewlines(s: string): string
    decreases |s|
  {
    if s != "" && s[|s| - 1] == '\n' then RStripNewlines(s[..|s| - 1]) else s
  }

  /** The block of a valid fragment, closed by one newline. */
  function Block(fragment: string): string
    requires OneBlock(Lines(fragment))
  {
    var ls := Lines(fragment);
    RStripNewlines(Concat(ls[BeginAt(ls)..EndAt(ls) + 1])) + "\n"
  }

  function CloseText(s: string): string {
    if Closed(s) then s else s + "\n"
  }

  predicate Unmarked(ls: seq<string>) {
    Positions(ls, BEGIN) == [] && Positions(ls, END) == []
  }

  /** `replace_managed_block`. */
  function Replace(current: string, fragment: string): Rewrite {
    if !OneBlock(Lines(fragment)) then InvalidFragment
    else
      var block, lines := Block(fragment), Lines(current);
      if Unmarked(lines) then Rewritten(CloseText(current) + block)
      else if !OneBlock(lines) then Ambiguous
      else Rewritten(Concat(lines[..BeginAt(lines)]) + block + Concat(lines[EndAt(lines) + 1..]))
  }

  // ------------------------------------------------------------------ positions under concatenation

  /** The lines with one block at `b` to `e` and no other marker. */
  ghost predicate BlockAt(ls: seq<string>, b: nat, e: nat) {
    && b < e < |ls| && Marks(ls[b], BEGIN) && Marks(ls[e], END)
    && forall i :: 0 <= i < |ls| ==> (i != b ==> !Marks(ls[i], BEGIN)) && (i != e ==> !Marks(ls[i], END))
  }

  lemma {:induction false} OnePosition(ls: seq<string>, marker: string, at: nat)
    requires at < |ls| && Marks(ls[at], marker) && forall i :: 0 <= i < |ls| && i != at ==> !Marks(ls[i], marker)
    ensures Positions(ls, marker) == [at]
  {
    var n := |ls| - 1;
    if at < n {
      OnePosition(ls[..n], marker, at);
    } else {
      NoPosition(ls[..n], marker);
    }
  }

  lemma NoPosition(ls: seq<string>, marker: string)
    ensures Positions(ls, marker) == [] <==> forall i :: 0 <= i < |ls| ==> !Marks(ls[i], marker)
  {
    if Positions(ls, marker) != [] {
      assert Positions(ls, marker)[0] in Positions(ls, marker);
    }
    forall i: nat | i < |ls| && Marks(ls[i], marker) ensures Positions(ls, marker) != [] {
      assert i in Positions(ls, marker);
    }
  }

  lemma {:induction false} UniquePosition(ls: seq<string>, marker: string)
    requires |Positions(ls, marker)| == 1
    ensures var at := Positions(ls, marker)[0];
            at < |ls| && Marks(ls[at], marker) && forall i :: 0 <= i < |ls| && i != at ==> !Marks(ls[i], marker)
  {
    var at := Positions(ls, marker)[0];
    assert at in Positions(ls, marker);
    forall i: nat | i < |ls| && Marks(ls[i], marker) ensures i == at {
      assert i in Positions(ls, marker);
    }
  }

  /** Counting the markers and locating the block are the same. */
  lemma OneBlockIsBlockAt(ls: seq<string>, b: nat, e: nat)
    ensures BlockAt(ls, b, e) <==> OneBlock(ls) && BeginAt(ls) == b && EndAt(ls) == e
  {
    if BlockAt(ls, b, e) {
      OnePosition(ls, BEGIN, b);
      OnePosition(ls, END, e);
    }
    if OneBlock(ls) {
      UniquePosition(ls, BEGIN);
      UniquePosition(ls, END);
    }
  }

  // ------------------------------------------------------------------ the block

  lemma {:induction false} StripsOneNewline(s: string)
    requires s != "" && forall i :: 0 <= i < |s| - 1 ==> s[i] != '\n'
    requires s != "\n"
    ensures RStripNewlines(s) + "\n" == CloseText(s)
  {
    if s[|s| - 1] == '\n' {
      var t := s[..|s| - 1];
      assert t != "" && t[|t| - 1] == s[|t| - 1] != '\n';
      assert t + "\n" == s;
    }
  }

  lemma {:induction false} RStripAppends(a: string, b: string)
    requires RStripNewlines(b) != ""
    ensures RStripNewlines(a + b) == a + RStripNewlines(b)
    decreases |b|
  {
    if b[|b| - 1] == '\n' {
      assert (a + b)[..|a + b| - 1] == a + b[..|b| - 1];
      RStripAppends(a, b[..|b| - 1]);
    }
  }

  /** A marker line is not blank. */
  lemma MarkerIsNotBlank(line: string)
    requires Line(line) && Marks(line, END)
    ensures line != "\n" && RStripNewlines(line) != ""
  {
    assert Routing.Strip("\n") == "";
  }

  /** Lines of the block: those of the fragment, with the last one closed. */
  function BlockLines(fragment: string): seq<string>
    requires OneBlock(Lines(fragment))
  {
    var ls := Lines(fragment);
    ls[BeginAt(ls)..EndAt(ls)] + [CloseText(ls[EndAt(ls)])]
  }

  lemma CloseKeepsMarks(line: string, marker: string)
    requires Line(line)
    ensures Line(CloseText(line)) && Closed(CloseText(line)) && (Marks(CloseText(line), marker) <==> Marks(line, marker))
  {
    StripTrailingNewline(line);
  }

  lemma {:induction false} StripTrailingNewline(s: string)
    ensures Routing.Strip(s + "\n") == Routing.Strip(s)
    decreases |s|
  {
    var t := s + "\n";
    if s == "" {
      assert t == "\n";
    } else if Routing.IsSpace(s[0]) {
      assert t[1..] == s[1..] + "\n";
      StripTrailingNewline(s[1..]);
    } else {
      assert t[..|t| - 1] == s;
    }
  }

  lemma ConcatSnoc(ls: seq<string>, last: string)
    ensures Concat(ls + [last]) == Concat(ls) + last
  {
    ConcatAppends(ls, [last]);
    assert Concat([last]) == last + "" == last;
  }

  /** Closing the last of some lines closes their text. */
  lemma ClosedBlock(body: seq<string>, last: string)
    requires Line(last) && last != "\n" && RStripNewlines(last) != ""
    ensures RStripNewlines(Concat(body + [last])) + "\n" == Concat(body + [CloseText(last)])
  {
    ConcatSnoc(body, last);
    ConcatSnoc(body, CloseText(last));
    RStripAppends(Concat(body), last);
    StripsOneNewline(last);
    hide Concat, RStripNewlines, CloseText;
    assert Concat(body) + RStripNewlines(last) + "\n" == Concat(body) + (RStripNewlines(last) + "\n");
  }

  lemma LinedSlice(ls: seq<string>, i: nat, j: nat)
    requires Lined(ls) && i <= j <= |ls|
    ensures Lined(ls[i..j]) && (j < |ls| ==> forall k :: 0 <= k < j - i ==> Closed(ls[i..j][k]))
  {
  }

  /** The block is a sequence of closed lines. */
  lemma BlockIsLined(fragment: string)
    requires OneBlock(Lines(fragment))
    ensures Lined(BlockLines(fragment)) && AllClosed(BlockLines(fragment))
  {
    var ls := Lines(fragment);
    LinesAreLined(fragment);
    LinedSlice(ls, BeginAt(ls), EndAt(ls));
    CloseKeepsMarks(ls[EndAt(ls)], END);
    hide OneBlock, Lines, CloseText;
  }

  lemma BlockText(ls: seq<string>, b: nat, e: nat)
    requires Lined(ls) && BlockAt(ls, b, e)
    ensures RStripNewlines(Concat(ls[b..e + 1])) + "\n" == Concat(ls[b..e] + [CloseText(ls[e])])
  {
    MarkerIsNotBlank(ls[e]);
    assert Line(ls[e]);
    hide *;
    assert ls[b..e + 1] == ls[b..e] + [ls[e]];
    ClosedBlock(ls[b..e], ls[e]);
  }

  /** The block text is exactly its lines. */
  lemma BlockIsItsLines(fragment: string)
    requires OneBlock(Lines(fragment))
    ensures Block(fragment) == Concat(BlockLines(fragment)) && Lines(Block(fragment)) == BlockLines(fragment)
  {
    hide Lines, Concat, RStripNewlines, CloseText, OneBlock, BeginAt, EndAt, Lined, BlockAt;
    var ls := Lines(fragment);
    LinesAreLined(fragment);
    OneBlockIsBlockAt(ls, BeginAt(ls), EndAt(ls));
    BlockText(ls, BeginAt(ls), EndAt(ls));
    BlockIsLined(fragment);
    LinesOfConcat(BlockLines(fragment));
  }

  lemma BlockMarksOf(ls: seq<string>, b: nat, e: nat)
    requires Lined(ls) && BlockAt(ls, b, e)
    ensures BlockAt(ls[b..e] + [CloseText(ls[e])], 0, e - b)
  {
    CloseKeepsMarks(ls[e], BEGIN);
    CloseKeepsMarks(ls[e], END);
    hide Marks, CloseText, Lined;
    var block := ls[b..e] + [CloseText(ls[e])];
    forall i | 0 <= i < e - b ensures block[i] == ls[b + i] {}
  }

  /** The block's lines hold the two markers at their ends and nowhere else. */
  lemma BlockMarks(fragment: string)
    requires OneBlock(Lines(fragment))
    ensures BlockLines(fragment) != [] && BlockAt(BlockLines(fragment), 0, |BlockLines(fragment)| - 1)
  {
    hide Lines, Concat, CloseText, OneBlock, BeginAt, EndAt, Lined, BlockAt;
    var ls := Lines(fragment);
    LinesAreLined(fragment);
    OneBlockIsBlockAt(ls, BeginAt(ls), EndAt(ls));
    BlockMarksOf(ls, BeginAt(ls), EndAt(ls));
  }

  // ------------------------------------------------------------------ main results

  /** What stays of the current text: the lines before and after the block's place. */
  function Kept(current: string): (seq<string>, seq<string>) {
    var lines := Lines(current);
    if OneBlock(lines) then (lines[..BeginAt(lines)], lines[EndAt(lines) + 1..]) else (Lines(CloseText(current)), [])
  }

  predicate Plain(line: string) {
    !Marks(line, BEGIN) && !Marks(line, END)
  }

  ghost predicate AllPlain(ls: seq<string>) {
    forall i :: 0 <= i < |ls| ==> Plain(ls[i])
  }

  ghost predicate AllClosed(ls: seq<string>) {
    forall i :: 0 <= i < |ls| ==> Closed(ls[i])
  }

  lemma KeptAroundBlock(ls: seq<string>, b: nat, e: nat)
    requires BlockAt(ls, b, e) && Lined(ls)
    ensures AllPlain(ls[..b]) && AllClosed(ls[..b]) && Lined(ls[..b])
    ensures AllPlain(ls[e + 1..]) && Lined(ls[e + 1..])
  {
    LinedSlice(ls, 0, b);
    LinedSlice(ls, e + 1, |ls|);
    hide Lined, Marks;
  }

  lemma PlainLines(ls: seq<string>)
    requires Unmarked(ls)
    ensures AllPlain(ls)
  {
    NoPosition(ls, BEGIN);
    NoPosition(ls, END);
  }

  lemma ClosedPlainLines(ls: seq<string>, cs: seq<string>)
    requires AllPlain(ls) && Lined(ls) && |cs| == |ls|
    requires forall i :: 0 <= i < |cs| ==> cs[i] == if i < |cs| - 1 then ls[i] else CloseText(ls[i])
    ensures AllPlain(cs) && AllClosed(cs)
  {
    forall i | 0 <= i < |cs| ensures Plain(cs[i]) && Closed(cs[i]) {
      CloseKeepsMarks(ls[i], BEGIN);
      CloseKeepsMarks(ls[i], END);
    }
  }

  /** What is kept holds no marker, and can be followed by other lines before the block. */
  lemma KeptIsUnmarked(current: string)
    requires OneBlock(Lines(current)) || Unmarked(Lines(current))
    ensures var (pre, post) := Kept(current);
            AllPlain(pre) && AllClosed(pre) && AllPlain(post) && Lined(pre) && Lined(post)
  {
    hide *;
    var ls := Lines(current);
    LinesAreLined(current);
    NothingLined();
    KeptShape(current);
    if OneBlock(ls) {
      OneBlockIsBlockAt(ls, BeginAt(ls), EndAt(ls));
      KeptAroundBlock(ls, BeginAt(ls), EndAt(ls));
    } else {
      PlainLines(ls);
      ClosedLines(current);
      ClosedPlainLines(ls, Lines(CloseText(current)));
    }
  }

  lemma KeptShape(current: string)
    ensures var ls := Lines(current);
            if OneBlock(ls) then Kept(current) == (ls[..BeginAt(ls)], ls[EndAt(ls) + 1..])
            else Kept(current) == (Lines(CloseText(current)), [])
  {
    hide Lines, OneBlock, BeginAt, EndAt, CloseText;
  }

  lemma NothingLined()
    ensures Lined([]) && AllPlain([])
  {
  }

  lemma LinesOfClosed(init: seq<string>, last: string)
    requires Lined(init + [last])
    ensures Lines(CloseText(Concat(init + [last]))) == init + [CloseText(last)] && Lined(init + [CloseText(last)])
  {
    var ls, cs := init + [last], init + [CloseText(last)];
    assert ls[|init|] == last && forall i :: 0 <= i < |init| ==> ls[i] == init[i];
    ConcatSnoc(init, last);
    ConcatSnoc(init, CloseText(last));
    CloseKeepsMarks(last, BEGIN);
    hide Concat;
    assert CloseText(Concat(init) + last) == Concat(init) + CloseText(last);
    assert Lined(cs);
    LinesOfConcat(cs);
  }

  /** Closing a text closes its last line and leaves the others. */
  lemma ClosedLines(current: string)
    ensures var ls, cs := Lines(current), Lines(CloseText(current));
            && |cs| == |ls| && Lined(cs)
            && (forall i :: 0 <= i < |cs| ==> Line(ls[i]) && cs[i] == if i < |cs| - 1 then ls[i] else CloseText(ls[i]))
  {
    var ls := Lines(current);
    LinesAreLined(current);
    ConcatOfLines(current);
    if ls != [] {
      assert ls == ls[..|ls| - 1] + [ls[|ls| - 1]];
      LinesOfClosed(ls[..|ls| - 1], ls[|ls| - 1]);
    }
  }

  /** Replacing succeeds exactly when the fragment holds one well-formed block and the current
      text one or none; the result is what was kept around the fragment's block. */
  lemma ReplacesExactlyTheBlock(current: string, fragment: string)
    ensures var r := Replace(current, fragment);
            && (r == InvalidFragment <==> !OneBlock(Lines(fragment)))
            && (r == Ambiguous <==> OneBlock(Lines(fragment)) && !Unmarked(Lines(current)) && !OneBlock(Lines(current)))
            && (r.Rewritten? ==> Lines(r.text) == Kept(current).0 + BlockLines(fragment) + Kept(current).1)
  {
    var r := Replace(current, fragment);
    if r.Rewritten? {
      ReplacedText(current, fragment);
      var (pre, post) := Kept(current);
      KeptIsUnmarked(current);
      BlockIsLined(fragment);
      hide Replace, Kept, BlockLines, Lines, Concat;
      LinedTogether(pre, BlockLines(fragment), post);
      LinesOfConcat(pre + BlockLines(fragment) + post);
    }
  }

  lemma RewrittenNeedsBlocks(current: string, fragment: string)
    requires Replace(current, fragment).Rewritten?
    ensures OneBlock(Lines(fragment)) && (OneBlock(Lines(current)) || Unmarked(Lines(current)))
  {
  }

  lemma BlocksAndMarks(ls: seq<string>)
    ensures OneBlock(ls) ==> !Unmarked(ls)
  {
  }

  /** The text of a result is what was kept around the block. */
  lemma ReplacedText(current: string, fragment: string)
    requires Replace(current, fragment).Rewritten?
    ensures Replace(current, fragment).text == Concat(Kept(current).0 + BlockLines(fragment) + Kept(current).1)
  {
    var (pre, post) := Kept(current);
    BlocksAndMarks(Lines(current));
    BlockIsItsLines(fragment);
    ConcatAppends(pre, BlockLines(fragment));
    ConcatAppends(pre + BlockLines(fragment), post);
    ConcatOfLines(CloseText(current));
    hide Lines, CloseText, OneBlock, Unmarked, Block, BlockLines, BeginAt, EndAt;
    assert Concat([]) == "";
    assert CloseText(current) + Block(fragment) + "" == CloseText(current) + Block(fragment);
  }

  lemma LinedTogether(a: seq<string>, b: seq<string>, c: seq<string>)
    requires Lined(a) && Lined(b) && Lined(c)
    requires AllClosed(a) && AllClosed(b)
    ensures Lined(a + b + c)
  {
  }

  /** The result holds exactly one block, and it is the fragment's. */
  lemma ResultHasTheBlock(current: string, fragment: string)
    ensures var r := Replace(current, fragment);
            r.Rewritten? ==>
              var (pre, _) := Kept(current);
              BlockAt(Lines(r.text), |pre|, |pre| + |BlockLines(fragment)| - 1)
  {
    hide *;
    var r := Replace(current, fragment);
    if r.Rewritten? {
      var (pre, post) := Kept(current);
      ReplacesExactlyTheBlock(current, fragment);
      RewrittenNeedsBlocks(current, fragment);
      KeptIsUnmarked(current);
      BlockMarks(fragment);
      BlockWithin(pre, BlockLines(fragment), post);
    }
  }

  lemma BlockWithin(pre: seq<string>, block: seq<string>, post: seq<string>)
    requires block != [] && BlockAt(block, 0, |block| - 1)
    requires AllPlain(pre) && AllPlain(post)
    ensures BlockAt(pre + block + post, |pre|, |pre| + |block| - 1)
  {
    hide Marks;
  }

  lemma BlockIsNotEmpty(fragment: string)
    requires OneBlock(Lines(fragment))
    ensures BlockLines(fragment) != []
  {
    hide Lines, OneBlock, BeginAt, EndAt, CloseText;
  }

  /** Rewriting the result again changes nothing. */
  lemma ReplaceIsIdempotent(current: string, fragment: string)
    ensures var r := Replace(current, fragment); r.Rewritten? ==> Replace(r.text, fragment) == r
  {
    var r := Replace(current, fragment);
    hide *;
    if r.Rewritten? {
      RewrittenNeedsBlocks(current, fragment);
      BlockIsNotEmpty(fragment);
      var (pre, post) := Kept(current);
      var block := BlockLines(fragment);
      ReplacesExactlyTheBlock(current, fragment);
      ResultHasTheBlock(current, fragment);
      var ls := Lines(r.text);
      OneBlockIsBlockAt(ls, |pre|, |pre| + |block| - 1);
      ReplacedText(current, fragment);
      KeptOfResult(r.text, fragment, pre, post);
      ReplacedAgain(r.text, fragment);
      ReplacedText(r.text, fragment);
    }
  }

  lemma ReplacedAgain(text: string, fragment: string)
    requires OneBlock(Lines(fragment)) && OneBlock(Lines(text))
    ensures Replace(text, fragment).Rewritten?
  {
  }

  lemma KeptOfResult(text: string, fragment: string, pre: seq<string>, post: seq<string>)
    requires OneBlock(Lines(fragment)) && OneBlock(Lines(text))
    requires Lines(text) == pre + BlockLines(fragment) + post
    requires BeginAt(Lines(text)) == |pre| && EndAt(Lines(text)) == |pre| + |BlockLines(fragment)| - 1
    ensures Kept(text) == (pre, post)
  {
    var ls, block := Lines(text), BlockLines(fragment);
    assert Kept(text) == (ls[..BeginAt(ls)], ls[EndAt(ls) + 1..]);
    hide *;
    assert ls[..|pre|] == pre && ls[|pre| + |block|..] == post;
  }
}
