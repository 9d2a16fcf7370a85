/**
 The greedy packing of quantagent/context_pack.py: items are appended under a character budget, and joined.
 */
module ContextPack {
  import opened Numbers
  import opened Text

  datatype Item = Item(section: string, title: string, body: string)

  const TRIMMED := "\n\n[trimmed by Context Engine]\n"

  function TrimToChars(text: string, limit: int): string {
    if |text| <= limit then text
    else (if Max(0, limit - 80) < |text| then text[..Max(0, limit - 80)] else text) + TRIMMED
  }

  function Header(item: Item): string {
    "## " + item.section + ": " + item.title + "\n\n"
  }

  function Chunk(item: Item, remaining: int): string {
    Header(item) + StripRight(TrimToChars(item.body, Max(300, remaining - |Header(item)| - 8))) + "\n\n"
  }

  // "\n".join
  function Join(lines: seq<string>): string {
    if lines == [] then ""
    else if |lines| == 1 then lines[0]
    else Join(lines[..|lines| - 1]) + "\n" + lines[|lines| - 1]
  }

  // `chunk` makes an item's text under a budget.
  function AddItem(chunk: (Item, int) -> string, lines: seq<string>, item: Item, remaining: int): (seq<string>, int) {
    if remaining <= 0 then (lines, 0)
    else
      var line := chunk(item, remaining);
      (lines + [line], remaining - |line|)
  }

  // The chunks packed under a budget; packing stops when at most 500 characters remain.
  function Packed(chunk: (Item, int) -> string, items: seq<Item>, remaining: int): seq<string>
    decreases |items|
  {
    if items == [] || remaining <= 500 then []
    else [chunk(items[0], remaining)] + Packed(chunk, items[1..], remaining - |chunk(items[0], remaining)|)
  }

  function Chunks(items: seq<Item>, remaining: int): seq<string> {
    Packed(Chunk, items, remaining)
  }

  // `preamble` are the lines every pack starts with.
  function Added(preamble: seq<string>, items: seq<Item>, charBudget: int): seq<string> {
    Chunks(items, charBudget - |Join(preamble)|)
  }

  function PackText(preamble: seq<string>, items: seq<Item>, charBudget: int): string {
    StripRight(Join(preamble + Added(preamble, items, charBudget))) + "\n"
  }

  lemma PackedStep(chunk: (Item, int) -> string, items: seq<Item>, i: nat, remaining: int, lines: seq<string>)
    requires i < |items| && remaining > 500
    ensures var (more, left) := AddItem(chunk, lines, items[i], remaining);
            lines + Packed(chunk, items[i..], remaining) == more + Packed(chunk, items[i + 1..], left)
  {
    assert items[i..][0] == items[i] && items[i..][1..] == items[i + 1..];
  }

  method PackLines(chunk: (Item, int) -> string, preamble: seq<string>, items: seq<Item>, budget: int)
    returns (lines: seq<string>)
    ensures lines == preamble + Packed(chunk, items, budget)
  {
    lines := preamble;
    var remaining := budget;
    assert items[0..] == items;
    var i := 0;
    while i < |items|
      invariant 0 <= i <= |items|
      invariant preamble + Packed(chunk, items, budget) == lines + Packed(chunk, items[i..], remaining)
    {
      if remaining <= 500 {
        break;
      }
      PackedStep(chunk, items, i, remaining, lines);
      var (more, left) := AddItem(chunk, lines, items[i], remaining);
      lines, remaining := more, left;
      i := i + 1;
    }
    assert lines + [] == lines;
  }

  method BuildContextText(preamble: seq<string>, items: seq<Item>, charBudget: int) returns (text: string)
    ensures text == PackText(preamble, items, charBudget)
  {
    var lines := PackLines(Chunk, preamble, items, charBudget - |Join(preamble)|);
    text := StripRight(Join(lines)) + "\n";
  }

  // ---------- How long the text gets ----------

  lemma JoinAppend(lines: seq<string>, line: string)
    requires lines != []
    ensures Join(lines + [line]) == Join(lines) + "\n" + line
  {
    assert (lines + [line])[..|lines|] == lines;
  }

  lemma TrimFits(text: string, limit: int)
    requires limit >= 80
    ensures |TrimToChars(text, limit)| <= limit
  {
  }

  ghost predicate EndsWithBlankLine(text: string) {
    |text| >= 2 && text[|text| - 2] == '\n' && text[|text| - 1] == '\n'
  }

  // What one item leaves of a budget above 500.
  lemma ChunkFits(item: Item, remaining: int)
    requires remaining > 500
    ensures remaining - |Chunk(item, remaining)| >= LeftAtLeast(item)
    ensures EndsWithBlankLine(Chunk(item, remaining))
  {
    var limit := Max(300, remaining - |Header(item)| - 8);
    TrimFits(item.body, limit);
    StripRightIsPrefix(TrimToChars(item.body, limit));
  }

  function Total(chunks: seq<string>): nat {
    if chunks == [] then 0 else |chunks[0]| + Total(chunks[1..])
  }

  // What one item may take of a budget, as a bound on what it leaves.
  function LeftAtLeast(item: Item): int {
    Min(6, 199 - |Header(item)|)
  }

  // Items are left out only when at most 500 characters remain, and the last item taken leaves at least a few.
  ghost predicate Fits(items: seq<Item>, remaining: int, chunks: seq<string>) {
    var n := |chunks|;
    && n <= |items|
    && (n < |items| ==> remaining - Total(chunks) <= 500)
    && (n > 0 ==> remaining - Total(chunks) >= LeftAtLeast(items[n - 1]) && EndsWithBlankLine(chunks[n - 1]))
  }

  lemma FitsCons(item: Item, items: seq<Item>, remaining: int, chunk: string, rest: seq<string>)
    requires remaining - |chunk| >= LeftAtLeast(item) && EndsWithBlankLine(chunk)
    requires Fits(items, remaining - |chunk|, rest)
    ensures Fits([item] + items, remaining, [chunk] + rest)
  {
    TotalCons(chunk, rest);
    var n := |rest|;
    assert ([item] + items)[n] == if n == 0 then item else items[n - 1];
    assert ([chunk] + rest)[n] == if n == 0 then chunk else rest[n - 1];
  }

  lemma {:induction false} PackedFits(chunk: (Item, int) -> string, items: seq<Item>, remaining: int)
    requires forall item, r :: r > 500 ==> r - |chunk(item, r)| >= LeftAtLeast(item) && EndsWithBlankLine(chunk(item, r))
    ensures Fits(items, remaining, Packed(chunk, items, remaining))
    decreases |items|
  {
    if items == [] || remaining <= 500 {
    } else {
      var line := chunk(items[0], remaining);
      PackedFits(chunk, items[1..], remaining - |line|);
      FitsCons(items[0], items[1..], remaining, line, Packed(chunk, items[1..], remaining - |line|));
      assert items == [items[0]] + items[1..];
    }
  }

  lemma ChunksFit(items: seq<Item>, remaining: int)
    ensures Fits(items, remaining, Chunks(items, remaining))
  {
    forall item, r | r > 500 ensures r - |Chunk(item, r)| >= LeftAtLeast(item) && EndsWithBlankLine(Chunk(item, r)) {
      ChunkFits(item, r);
    }
    PackedFits(Chunk, items, remaining);
  }

  lemma TotalCons(chunk: string, rest: seq<string>)
    ensures Total([chunk] + rest) == |chunk| + Total(rest)
  {
  }

  // Each line costs its length, and one more for joining, which the remaining budget does not count.
  lemma {:induction false} JoinLength(lines: seq<string>, chunks: seq<string>)
    requires lines != []
    ensures |Join(lines + chunks)| == |Join(lines)| + Total(chunks) + |chunks|
    decreases |chunks|
  {
    if chunks == [] {
      assert lines + chunks == lines;
    } else {
      JoinAppend(lines, chunks[0]);
      JoinLength(lines + [chunks[0]], chunks[1..]);
      assert lines + [chunks[0]] + chunks[1..] == lines + chunks;
    }
  }

  lemma NewlineIsSpace()
    ensures IsSpace('\n')
  {
    assert InSomeRange(10, SPACES);
  }

  // Joined lines end as their last line does, and lose that end to stripping.
  lemma StrippedJoin(lines: seq<string>, k: nat)
    requires lines != []
    requires var last := lines[|lines| - 1];
             k <= |last| && forall i :: |last| - k <= i < |last| ==> last[i] == '\n'
    ensures |StripRight(Join(lines))| <= |Join(lines)| - k
  {
    var front, last := lines[..|lines| - 1], lines[|lines| - 1];
    NewlineIsSpace();
    var all := Join(lines);
    var before := if front == [] then "" else Join(front) + "\n";
    assert all == before + last;
    forall i | |all| - k <= i < |all| ensures IsSpace(all[i]) {
      assert all[i] == last[i - |before|];
    }
    StripRightIsPrefix(all);
  }

  // With n items added, the last under a header of h characters, the text has at most char_budget + n - 1 + max(-6, h - 199)
  // characters: char_budget + n - 7 for headers of up to 193.
  lemma PackBound(preamble: seq<string>, items: seq<Item>, charBudget: int)
    requires preamble != [] && Added(preamble, items, charBudget) != []
    ensures var n := |Added(preamble, items, charBudget)|;
            && n <= |items|
            && |PackText(preamble, items, charBudget)| <= charBudget + Excess(items[..n])
            && (|Header(items[n - 1])| <= 193 ==> |PackText(preamble, items, charBudget)| <= charBudget + n - 7)
  {
    ChunksFit(items, charBudget - |Join(preamble)|);
    PackedLength(preamble, Added(preamble, items, charBudget));
  }

  lemma PackedLength(preamble: seq<string>, chunks: seq<string>)
    requires preamble != [] && chunks != [] && EndsWithBlankLine(chunks[|chunks| - 1])
    ensures |StripRight(Join(preamble + chunks))| <= |Join(preamble)| + Total(chunks) + |chunks| - 2
  {
    JoinLength(preamble, chunks);
    StrippedJoin(preamble + chunks, 2);
  }

  // Without room for any item, the text is no longer than the preamble, and the budget leaves at most 500 characters for items.
  lemma PreambleOnly(preamble: seq<string>, items: seq<Item>, charBudget: int)
    requires |preamble| > 1 && preamble[|preamble| - 1] == "" && Added(preamble, items, charBudget) == []
    ensures |PackText(preamble, items, charBudget)| <= |Join(preamble)|
    ensures items != [] ==> charBudget - |Join(preamble)| <= 500
  {
    var front := preamble[..|preamble| - 1];
    NewlineIsSpace();
    var all := Join(preamble);
    assert preamble + [] == preamble;
    assert all == Join(front) + "\n" + "" == Join(front) + "\n";
    assert StripRight(all) == StripRight(all[..|all| - 1]);
    StripRightIsPrefix(all[..|all| - 1]);
  }

  // ---------- What is kept ----------

  // A body within the limit is kept up to the white space at its end; of a longer one a beginning is kept, with a mark.
  ghost predicate KeptOf(body: string, limit: int, kept: string) {
    if |body| <= limit
    then kept <= body && (forall i :: |kept| <= i < |body| ==> IsSpace(body[i])) && (kept != "" ==> !IsSpace(kept[|kept| - 1]))
    else limit >= 80 && kept == body[..limit - 80] + "\n\n[trimmed by Context Engine]"
  }

  // The text of an item: its section and title, and what is kept of its body in the room that they leave.
  ghost predicate Shows(line: string, item: Item, remaining: int) {
    exists kept ::
      && line == "## " + item.section + ": " + item.title + "\n\n" + kept + "\n\n"
      && KeptOf(item.body, Max(300, remaining - |item.section| - |item.title| - 15), kept)
  }

  lemma MarkIsStripped(front: string)
    ensures StripRight(front + TRIMMED) == front + "\n\n[trimmed by Context Engine]"
  {
    var mark := "\n\n[trimmed by Context Engine]";
    NewlineIsSpace();
    OutsideRanges(']' as int, SPACES);
    assert TRIMMED == mark + "\n";
    var all := front + TRIMMED;
    assert all[..|all| - 1] == front + mark;
    assert (front + mark)[|front + mark| - 1] == mark[|mark| - 1] == ']';
  }

  lemma ChunkShows(item: Item, remaining: int)
    ensures Shows(Chunk(item, remaining), item, remaining)
  {
    var limit := Max(300, remaining - |Header(item)| - 8);
    assert |Header(item)| == |item.section| + |item.title| + 7;
    var kept := StripRight(TrimToChars(item.body, limit));
    if |item.body| <= limit {
      StripRightIsPrefix(item.body);
    } else {
      MarkIsStripped(item.body[..limit - 80]);
    }
    assert KeptOf(item.body, limit, kept);
  }

  // The `k`-th line shows the `k`-th item in what the lines before it leave, and more than 500 characters were left for it.
  ghost predicate ShowsAt(items: seq<Item>, budget: int, lines: seq<string>, k: nat)
    requires k < |lines| && k < |items|
  {
    budget - Total(lines[..k]) > 500 && Shows(lines[k], items[k], budget - Total(lines[..k]))
  }

  lemma ShowsLater(item: Item, items: seq<Item>, budget: int, line: string, rest: seq<string>, k: nat)
    requires k < |rest| && k < |items| && ShowsAt(items, budget - |line|, rest, k)
    ensures ShowsAt([item] + items, budget, [line] + rest, k + 1)
  {
    assert ([line] + rest)[..k + 1] == [line] + rest[..k];
    TotalCons(line, rest[..k]);
  }

  // Each line shows its item, and items are left out only when at most 500 characters remain.
  ghost predicate AllShown(items: seq<Item>, budget: int, lines: seq<string>) {
    && |lines| <= |items| && (|lines| < |items| ==> budget - Total(lines) <= 500)
    && forall k :: 0 <= k < |lines| ==> ShowsAt(items, budget, lines, k)
  }

  lemma ShownCons(item: Item, items: seq<Item>, budget: int, line: string, rest: seq<string>)
    requires budget > 500 && Shows(line, item, budget) && AllShown(items, budget - |line|, rest)
    ensures AllShown([item] + items, budget, [line] + rest)
  {
    TotalCons(line, rest);
    var all, lines := [item] + items, [line] + rest;
    assert lines[..0] == [] && ShowsAt(all, budget, lines, 0);
    forall k | 1 <= k < |lines| ensures ShowsAt(all, budget, lines, k) {
      ShowsLater(item, items, budget, line, rest, k - 1);
    }
  }

  lemma {:induction false} PackedShows(chunk: (Item, int) -> string, items: seq<Item>, budget: int)
    requires forall item, r :: Shows(chunk(item, r), item, r)
    ensures AllShown(items, budget, Packed(chunk, items, budget))
    decreases |items|
  {
    if items == [] || budget <= 500 {
    } else {
      var line := chunk(items[0], budget);
      PackedShows(chunk, items[1..], budget - |line|);
      ShownCons(items[0], items[1..], budget, line, Packed(chunk, items[1..], budget - |line|));
      assert items == [items[0]] + items[1..];
    }
  }

  lemma StrippedIsKept(all: string)
    ensures KeptOf(all, |all|, StripRight(all))
  {
    StripRightIsPrefix(all);
  }

  // The lines of a text: those of the preamble, then each item with what is kept of it, in order, until no more than 500 characters
  // are left. The text is these lines, joined, without the white space at their end.
  lemma TextShows(preamble: seq<string>, items: seq<Item>, charBudget: int)
    ensures AllShown(items, charBudget - |Join(preamble)|, Added(preamble, items, charBudget))
    ensures exists kept :: PackText(preamble, items, charBudget) == kept + "\n"
                           && var all := Join(preamble + Added(preamble, items, charBudget)); KeptOf(all, |all|, kept)
  {
    forall item, r ensures Shows(Chunk(item, r), item, r) {
      ChunkShows(item, r);
    }
    PackedShows(Chunk, items, charBudget - |Join(preamble)|);
    StrippedIsKept(Join(preamble + Added(preamble, items, charBudget)));
  }

  // ---------- The bound is reached ----------

  function Xs(n: nat): string {
    seq(n, _ => 'x')
  }

  // Items with the sections and titles of `heads` and bodies that begin as theirs: short ones, and a last one that fills what is
  // left of a budget of 501.
  function Filled(heads: seq<Item>): seq<Item>
    requires BeginningsFit(heads)
  {
    if heads == [] then []
    else if |heads| == 1 then
      [heads[0].(body := heads[0].body + Xs(Max(300, 493 - |Header(heads[0])|) - |heads[0].body|))]
    else [heads[0].(body := heads[0].body + "x")] + Filled(heads[1..])
  }

  // The last beginning leaves room in the least body that is never trimmed.
  predicate BeginningsFit(heads: seq<Item>) {
    heads == [] || |heads[|heads| - 1].body| < 300
  }

  // The budget for them, beside the preamble.
  function Room(heads: seq<Item>): nat {
    if |heads| <= 1 then 501 else |Header(heads[0])| + |heads[0].body| + 3 + Room(heads[1..])
  }

  // What the text can have beyond the budget.
  function Excess(items: seq<Item>): int
    requires items != []
  {
    |items| - 1 + Max(-6, |Header(items[|items| - 1])| - 199)
  }

  lemma XIsNoSpace()
    ensures !IsSpace('x')
  {
    OutsideRanges('x' as int, SPACES);
  }

  lemma StripKeeps(text: string)
    requires text != "" && text[|text| - 1] == 'x'
    ensures StripRight(text) == text
  {
    XIsNoSpace();
  }

  ghost predicate EndsExactly(line: string) {
    |line| > 2 && line[|line| - 3] == 'x' && line[|line| - 2..] == "\n\n"
  }

  predicate EndsInX(text: string) {
    text != "" && text[|text| - 1] == 'x'
  }

  lemma ShortChunk(item: Item, remaining: int)
    requires EndsInX(item.body) && remaining >= |Header(item)| + |item.body| + 8
    ensures |Chunk(item, remaining)| == |Header(item)| + |item.body| + 2
  {
    StripKeeps(item.body);
  }

  lemma LastChunk(item: Item)
    requires EndsInX(item.body) && |item.body| == Max(300, 493 - |Header(item)|)
    ensures |Chunk(item, 501)| == Max(495, |Header(item)| + 302) && EndsExactly(Chunk(item, 501))
  {
    StripKeeps(item.body);
    var chunk := Chunk(item, 501);
    assert chunk == Header(item) + item.body + "\n\n";
  }

  // `chunk` makes the texts of the items above as exactly as Chunk does.
  ghost predicate Exact(chunk: (Item, int) -> string) {
    && (forall item: Item, r :: EndsInX(item.body) && r >= |Header(item)| + |item.body| + 8 ==>
          |chunk(item, r)| == |Header(item)| + |item.body| + 2)
    && forall item: Item :: EndsInX(item.body) && |item.body| == Max(300, 493 - |Header(item)|) ==>
         |chunk(item, 501)| == Max(495, |Header(item)| + 302) && EndsExactly(chunk(item, 501))
  }

  lemma {:induction false} FillsUp(chunk: (Item, int) -> string, heads: seq<Item>)
    requires heads != [] && BeginningsFit(heads) && Exact(chunk)
    ensures var chunks := Packed(chunk, Filled(heads), Room(heads));
            && |chunks| == |heads|
            && Room(heads) - Total(chunks) == -Max(-6, |Header(heads[|heads| - 1])| - 199)
            && EndsExactly(chunks[|heads| - 1])
    decreases |heads|
  {
    if |heads| == 1 {
      LastFits(chunk, heads[0]);
    } else {
      var item, room := heads[0].(body := heads[0].body + "x"), Room(heads);
      var line := chunk(item, room);
      RoomIsEnough(heads[1..]);
      SameHeader(item, heads[0]);
      assert |line| == |Header(heads[0])| + |heads[0].body| + 3;
      FillsUp(chunk, heads[1..]);
      PackedCons(chunk, item, Filled(heads[1..]), room);
      TotalCons(line, Packed(chunk, Filled(heads[1..]), Room(heads[1..])));
    }
  }

  lemma RoomIsEnough(heads: seq<Item>)
    ensures Room(heads) >= 501
  {
  }

  lemma LastFits(chunk: (Item, int) -> string, head: Item)
    requires |head.body| < 300 && Exact(chunk)
    ensures var chunks := Packed(chunk, Filled([head]), 501);
            && |chunks| == 1
            && 501 - Total(chunks) == -Max(-6, |Header(head)| - 199)
            && EndsExactly(chunks[0])
  {
    var item := Filled([head])[0];
    SameHeader(item, head);
    assert EndsInX(item.body);
    PackedCons(chunk, item, [], 501);
    TotalCons(chunk(item, 501), []);
  }

  lemma PackedCons(chunk: (Item, int) -> string, item: Item, items: seq<Item>, remaining: int)
    requires remaining > 500
    ensures Packed(chunk, [item] + items, remaining)
         == [chunk(item, remaining)] + Packed(chunk, items, remaining - |chunk(item, remaining)|)
  {
  }

  lemma ChunkIsExact()
    ensures Exact(Chunk)
  {
    forall item: Item, r | EndsInX(item.body) && r >= |Header(item)| + |item.body| + 8
      ensures |Chunk(item, r)| == |Header(item)| + |item.body| + 2
    {
      ShortChunk(item, r);
    }
    forall item: Item | EndsInX(item.body) && |item.body| == Max(300, 493 - |Header(item)|)
      ensures |Chunk(item, 501)| == Max(495, |Header(item)| + 302) && EndsExactly(Chunk(item, 501))
    {
      LastChunk(item);
    }
  }

  lemma SharpLength(chunk: (Item, int) -> string, preamble: seq<string>, heads: seq<Item>)
    requires preamble != [] && heads != [] && BeginningsFit(heads) && Exact(chunk)
    ensures var chunks := Packed(chunk, Filled(heads), Room(heads));
            && |chunks| == |heads|
            && |StripRight(Join(preamble + chunks))| == |Join(preamble)| + Room(heads) + Excess(heads) - 1
  {
    FillsUp(chunk, heads);
    ExactLength(preamble, Packed(chunk, Filled(heads), Room(heads)));
  }

  // Whatever the sections, titles and beginnings of the items, some bodies and some budget reach the bound.
  lemma PackBoundIsSharp(preamble: seq<string>, heads: seq<Item>, charBudget: int)
    requires preamble != [] && heads != [] && BeginningsFit(heads) && charBudget == |Join(preamble)| + Room(heads)
    ensures |Added(preamble, Filled(heads), charBudget)| == |heads|
    ensures |PackText(preamble, Filled(heads), charBudget)| == charBudget + Excess(heads)
  {
    ChunkIsExact();
    SharpLength(Chunk, preamble, heads);
  }

  // The items have these sections and titles, and bodies that begin with these.
  ghost predicate SameHeads(items: seq<Item>, heads: seq<Item>) {
    |items| == |heads| && forall k :: 0 <= k < |heads| ==> BeginsAs(items[k], heads[k])
  }

  predicate BeginsAs(item: Item, head: Item) {
    item.section == head.section && item.title == head.title && head.body <= item.body
  }

  // With all of the items added, the text stays within the budget, however their bodies go on and whatever the budget.
  ghost predicate BudgetHolds(preamble: seq<string>, heads: seq<Item>) {
    forall items, charBudget :: SameHeads(items, heads) && |Added(preamble, items, charBudget)| == |heads| ==>
      |PackText(preamble, items, charBudget)| <= charBudget
  }

  lemma {:induction false} FilledSameHeads(heads: seq<Item>)
    requires BeginningsFit(heads)
    ensures SameHeads(Filled(heads), heads)
  {
    if |heads| <= 1 {
    } else {
      FilledSameHeads(heads[1..]);
      assert forall k :: 0 < k < |heads| ==> heads[k] == heads[1..][k - 1];
    }
  }

  // The budget is kept for sure exactly when the excess is none: for a last header of up to 193 characters, with at most 7 items.
  lemma BudgetHoldsIff(preamble: seq<string>, heads: seq<Item>)
    requires preamble != [] && heads != [] && BeginningsFit(heads)
    ensures BudgetHolds(preamble, heads) <==> Excess(heads) <= 0
    ensures |Header(heads[|heads| - 1])| <= 193 ==> (BudgetHolds(preamble, heads) <==> |heads| <= 7)
  {
    if Excess(heads) <= 0 {
      forall items, charBudget | SameHeads(items, heads) && |Added(preamble, items, charBudget)| == |heads|
        ensures |PackText(preamble, items, charBudget)| <= charBudget
      {
        PackBound(preamble, items, charBudget);
        assert BeginsAs(items[|heads| - 1], heads[|heads| - 1]);
        SameHeader(items[|heads| - 1], heads[|heads| - 1]);
      }
    } else {
      var charBudget := |Join(preamble)| + Room(heads);
      PackBoundIsSharp(preamble, heads, charBudget);
      FilledSameHeads(heads);
    }
  }

  lemma SameHeader(a: Item, b: Item)
    requires a.section == b.section && a.title == b.title
    ensures Header(a) == Header(b)
  {
  }

  lemma ExactLength(preamble: seq<string>, chunks: seq<string>)
    requires preamble != [] && chunks != []
    requires EndsExactly(chunks[|chunks| - 1])
    ensures |StripRight(Join(preamble + chunks))| == |Join(preamble)| + Total(chunks) + |chunks| - 2
  {
    JoinLength(preamble, chunks);
    var front, last := preamble + chunks[..|chunks| - 1], chunks[|chunks| - 1];
    assert preamble + chunks == front + [last];
    JoinAppend(front, last);
    StripTwo(Join(front) + "\n", last);
  }

  lemma StripTwo(before: string, last: string)
    requires EndsExactly(last)
    ensures |StripRight(before + last)| == |before + last| - 2
  {
    NewlineIsSpace();
    var all := before + last;
    assert all[|all| - 1] == last[|last| - 2..][1] && all[|all| - 2] == last[|last| - 2..][0];
    var shorter := all[..|all| - 1];
    var body := shorter[..|shorter| - 1];
    assert body[|body| - 1] == last[|last| - 3];
    StripKeeps(body);
  }
}
