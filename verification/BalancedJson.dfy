/**
 Extraction of balanced JSON fragments from a text: `extractBalancedJsonPrefix` and `extractBalancedJsonFragments`
 (JavaScript source held in quantagent/agent_planner.py).
 */
module BalancedJson {
  import opened Literals
  import opened Sequences
  import opened Wrappers

  datatype Fragment = Fragment(json: string, startIndex: nat, endIndex: nat)

  // What the loop carries; `stack` holds the openers, the innermost last.
  datatype State = State(stack: string, inString: bool, escaped: bool)

  const START := State([], false, false)

  // isJsonOpeningDelimiter; `openers` are the delimiters asked for.
  predicate IsOpener(c: char, openers: set<char>) {
    (c == '{' || c == '[') && c in openers
  }

  // CLOSING_DELIMITER
  function Closer(opener: char): char {
    if opener == '{' then '}' else ']'
  }

  predicate Pops(st: State, c: char, openers: set<char>) {
    !st.inString && c != '"' && !IsOpener(c, openers) && st.stack != [] && c == Closer(st.stack[|st.stack| - 1])
  }

  function Next(st: State, c: char, openers: set<char>): State {
    if st.inString then
      if st.escaped then st.(escaped := false)
      else if c == '\\' then st.(escaped := true)
      else if c == '"' then st.(inString := false)
      else st
    else if c == '"' then st.(inString := true)
    else if IsOpener(c, openers) then st.(stack := st.stack + [c])
    else if Pops(st, c, openers) then st.(stack := st.stack[..|st.stack| - 1])
    else st
  }

  // The index of the character that empties the stack.
  function ScanEnd(raw: string, i: nat, st: State, openers: set<char>): (r: Option<nat>)
    requires i <= |raw|
    ensures r.Some? ==> i <= r.value < |raw|
    decreases |raw| - i
  {
    if i == |raw| then None
    else if Pops(st, raw[i], openers) && |st.stack| == 1 then Some(i)
    else ScanEnd(raw, i + 1, Next(st, raw[i], openers), openers)
  }

  function FirstOpener(raw: string, i: nat, openers: set<char>): (r: nat)
    requires i <= |raw|
    ensures i <= r <= |raw| && (r < |raw| ==> IsOpener(raw[r], openers))
    ensures forall k :: i <= k < r ==> !IsOpener(raw[k], openers)
    decreases |raw| - i
  {
    if i < |raw| && !IsOpener(raw[i], openers) then FirstOpener(raw, i + 1, openers) else i
  }

  function ExtractPrefix(raw: string, openers: set<char>): (r: Option<Fragment>)
    ensures r.Some? ==> r.value.startIndex <= r.value.endIndex < |raw|
  {
    var start := FirstOpener(raw, 0, openers);
    if start >= |raw| then None
    else
      match ScanEnd(raw, start, START, openers)
      case None => None
      case Some(end) => Some(Fragment(raw[start..end + 1], start, end))
  }

  // The next fragment from `offset` on, at its indices in the whole text.
  function ExtractFrom(raw: string, offset: nat, openers: set<char>): (r: Option<Fragment>)
    requires offset <= |raw|
    ensures r.Some? ==> offset <= r.value.startIndex <= r.value.endIndex < |raw|
  {
    var start := FirstOpener(raw, offset, openers);
    if start >= |raw| then None
    else
      match ScanEnd(raw, start, START, openers)
      case None => None
      case Some(end) => Some(Fragment(raw[start..end + 1], start, end))
  }

  function FragmentsFrom(raw: string, offset: nat, openers: set<char>): seq<Fragment>
    requires offset <= |raw|
    decreases |raw| - offset
  {
    match ExtractFrom(raw, offset, openers)
    case None => []
    case Some(f) => [f] + FragmentsFrom(raw, f.endIndex + 1, openers)
  }

  lemma NextFragments(raw: string, offset: nat, openers: set<char>)
    requires offset <= |raw|
    ensures FragmentsFrom(raw, offset, openers) ==
            match ExtractFrom(raw, offset, openers) {
              case None => []
              case Some(f) => [f] + FragmentsFrom(raw, f.endIndex + 1, openers)
            }
  {
  }

  // ---------- The loops of the source ----------

  method ExtractBalancedJsonPrefix(raw: string, openers: set<char>) returns (fragment: Option<Fragment>)
    ensures fragment == ExtractPrefix(raw, openers)
  {
    var start := 0;
    while start < |raw| && !IsOpener(raw[start], openers)
      invariant 0 <= start <= |raw|
      invariant FirstOpener(raw, 0, openers) == FirstOpener(raw, start, openers)
    {
      start := start + 1;
    }
    if start >= |raw| {
      return None;
    }
    var stack: string := [];
    var inString, escaped := false, false;
    var i := start;
    while i < |raw|
      invariant start <= i <= |raw|
      invariant ScanEnd(raw, start, START, openers) == ScanEnd(raw, i, State(stack, inString, escaped), openers)
    {
      var c := raw[i];
      if inString {
        if escaped {
          escaped := false;
        } else if c == '\\' {
          escaped := true;
        } else if c == '"' {
          inString := false;
        }
      } else if c == '"' {
        inString := true;
      } else if IsOpener(c, openers) {
        stack := stack + [c];
      } else if |stack| > 0 && c == Closer(stack[|stack| - 1]) {
        stack := stack[..|stack| - 1];
        if |stack| == 0 {
          return Some(Fragment(raw[start..i + 1], start, i));
        }
      }
      i := i + 1;
    }
    fragment := None;
  }

  // `done` are the fragments before `offset`.
  ghost predicate DoneUpTo(raw: string, offset: nat, openers: set<char>, done: seq<Fragment>) {
    offset <= |raw| && FragmentsFrom(raw, 0, openers) == done + FragmentsFrom(raw, offset, openers)
  }

  // One round of the loop, from the fragment found in the slice.
  lemma TakeFragment(raw: string, offset: nat, openers: set<char>, done: seq<Fragment>, f: Fragment)
    requires DoneUpTo(raw, offset, openers, done) && ExtractPrefix(raw[offset..], openers) == Some(f)
    ensures DoneUpTo(raw, offset + f.endIndex + 1, openers,
                     done + [Fragment(f.json, offset + f.startIndex, offset + f.endIndex)])
  {
    var absolute := Fragment(f.json, offset + f.startIndex, offset + f.endIndex);
    FirstFragment(raw, offset, openers, f);
    Regroup(done, absolute, FragmentsFrom(raw, absolute.endIndex + 1, openers));
  }

  lemma FirstFragment(raw: string, offset: nat, openers: set<char>, f: Fragment)
    requires offset <= |raw| && ExtractPrefix(raw[offset..], openers) == Some(f)
    ensures offset + f.endIndex < |raw|
    ensures FragmentsFrom(raw, offset, openers)
         == [Fragment(f.json, offset + f.startIndex, offset + f.endIndex)] + FragmentsFrom(raw, offset + f.endIndex + 1, openers)
  {
    ExtractInSuffix(raw, offset, openers);
    NextFragments(raw, offset, openers);
  }

  lemma NoFragment(raw: string, offset: nat, openers: set<char>, done: seq<Fragment>)
    requires DoneUpTo(raw, offset, openers, done)
    requires offset < |raw| ==> ExtractPrefix(raw[offset..], openers).None?
    ensures FragmentsFrom(raw, 0, openers) == done
  {
    ExtractInSuffix(raw, offset, openers);
    NextFragments(raw, offset, openers);
  }

  lemma Regroup<T>(done: seq<T>, x: T, coming: seq<T>)
    ensures done + ([x] + coming) == (done + [x]) + coming
  {
  }

  method ExtractBalancedJsonFragments(raw: string, openers: set<char>) returns (fragments: seq<Fragment>)
    ensures fragments == FragmentsFrom(raw, 0, openers)
  {
    fragments := [];
    var offset := 0;
    while offset < |raw|
      invariant 0 <= offset <= |raw| && DoneUpTo(raw, offset, openers, fragments)
      decreases |raw| - offset
    {
      var fragment := ExtractBalancedJsonPrefix(raw[offset..], openers);
      if fragment.None? {
        NoFragment(raw, offset, openers, fragments);
        return;
      }
      var f := fragment.value;
      var absolute := Fragment(f.json, offset + f.startIndex, offset + f.endIndex);
      TakeFragment(raw, offset, openers, fragments, f);
      fragments := fragments + [absolute];
      offset := offset + f.endIndex + 1;
    }
    NoFragment(raw, offset, openers, fragments);
  }

  // ---------- What the fragments are ----------

  // The state after the characters [from, upto).
  function StateAt(raw: string, from: nat, upto: nat, openers: set<char>): State
    requires from <= upto <= |raw|
    decreases upto
  {
    if from == upto then START else Next(StateAt(raw, from, upto - 1, openers), raw[upto - 1], openers)
  }

  // The stack holds something after every character of [from, upto).
  ghost predicate OpenUntil(raw: string, from: nat, upto: nat, openers: set<char>) {
    from <= upto <= |raw| && forall k :: from < k <= upto ==> StateAt(raw, from, k, openers).stack != []
  }

  ghost predicate NeverClosed(raw: string, from: nat, openers: set<char>) {
    OpenUntil(raw, from, |raw|, openers)
  }

  // The character at `end` empties the stack for the first time, and closes the opener at `from`.
  ghost predicate ClosesAt(raw: string, from: nat, end: nat, openers: set<char>) {
    && from < end < |raw|
    && raw[end] == Closer(raw[from])
    && StateAt(raw, from, end + 1, openers).stack == []
    && OpenUntil(raw, from, end, openers)
  }

  // One fragment: an exact slice from an opener to its own closing delimiter, where the stack is empty for the first time.
  ghost predicate IsFragment(raw: string, f: Fragment, openers: set<char>) {
    && f.startIndex < f.endIndex < |raw|
    && f.json == raw[f.startIndex..f.endIndex + 1]
    && IsOpener(raw[f.startIndex], openers)
    && ClosesAt(raw, f.startIndex, f.endIndex, openers)
  }

  // What a scan over the characters from `from` on means.
  ghost predicate Delimits(raw: string, from: nat, end: Option<nat>, openers: set<char>)
    requires from < |raw|
  {
    match end
    case None => NeverClosed(raw, from, openers)
    case Some(e) => ClosesAt(raw, from, e, openers)
  }

  lemma StateStep(raw: string, from: nat, i: nat, st: State, openers: set<char>)
    requires from <= i < |raw| && st == StateAt(raw, from, i, openers)
    ensures StateAt(raw, from, i + 1, openers) == Next(st, raw[i], openers)
  {
  }

  lemma ScanStep(raw: string, i: nat, st: State, openers: set<char>)
    requires i < |raw|
    ensures ScanEnd(raw, i, st, openers) ==
            if Pops(st, raw[i], openers) && |st.stack| == 1 then Some(i)
            else ScanEnd(raw, i + 1, Next(st, raw[i], openers), openers)
  {
  }

  // A step that does not end the scan keeps the first opener at the bottom of the stack.
  lemma NextKeepsBottom(st: State, c: char, openers: set<char>)
    requires st.stack != [] && !(Pops(st, c, openers) && |st.stack| == 1)
    ensures Next(st, c, openers).stack != [] && Next(st, c, openers).stack[0] == st.stack[0]
  {
  }

  // The openers on the stack start with the first one for as long as the stack is not empty.
  lemma {:induction false} ScanStops(raw: string, from: nat, i: nat, st: State, openers: set<char>)
    requires from < i <= |raw| && OpenUntil(raw, from, i, openers)
    requires st == StateAt(raw, from, i, openers) && st.stack != [] && st.stack[0] == raw[from]
    ensures Delimits(raw, from, ScanEnd(raw, i, st, openers), openers)
    decreases |raw| - i
  {
    if i == |raw| {
    } else {
      ScanStep(raw, i, st, openers);
      StateStep(raw, from, i, st, openers);
      if !(Pops(st, raw[i], openers) && |st.stack| == 1) {
        NextKeepsBottom(st, raw[i], openers);
        ScanStops(raw, from, i + 1, Next(st, raw[i], openers), openers);
      }
    }
  }

  // From an opener on, the scan delimits one fragment, or the opener is never closed.
  lemma ScanDelimits(raw: string, from: nat, openers: set<char>)
    requires from < |raw| && IsOpener(raw[from], openers)
    ensures Delimits(raw, from, ScanEnd(raw, from, START, openers), openers)
  {
    StateStep(raw, from, from, START, openers);
    ScanStep(raw, from, START, openers);
    var st := Next(START, raw[from], openers);
    assert st.stack == [raw[from]];
    ScanStops(raw, from, from + 1, st, openers);
  }

  lemma {:induction false} FirstOpenerInSuffix(raw: string, offset: nat, i: nat, openers: set<char>)
    requires offset + i <= |raw|
    ensures offset + FirstOpener(raw[offset..], i, openers) == FirstOpener(raw, offset + i, openers)
    decreases |raw| - i
  {
    if offset + i == |raw| {
    } else {
      assert raw[offset..][i] == raw[offset + i];
      FirstOpenerInSuffix(raw, offset, i + 1, openers);
    }
  }

  lemma {:induction false} ScanInSuffix(raw: string, offset: nat, i: nat, st: State, openers: set<char>)
    requires offset + i <= |raw|
    ensures ScanEnd(raw, offset + i, st, openers) ==
            match ScanEnd(raw[offset..], i, st, openers) { case None => None case Some(end) => Some(offset + end) }
    decreases |raw| - i
  {
    if offset + i == |raw| {
    } else {
      assert raw[offset..][i] == raw[offset + i];
      if !(Pops(st, raw[offset + i], openers) && |st.stack| == 1) {
        ScanInSuffix(raw, offset, i + 1, Next(st, raw[offset + i], openers), openers);
      }
    }
  }

  // Working on a slice of the text is working on the text.
  lemma ExtractInSuffix(raw: string, offset: nat, openers: set<char>)
    requires offset <= |raw|
    ensures ExtractFrom(raw, offset, openers) ==
            match ExtractPrefix(raw[offset..], openers) {
              case None => None
              case Some(f) => Some(Fragment(f.json, offset + f.startIndex, offset + f.endIndex))
            }
  {
    var rest := raw[offset..];
    var start := FirstOpener(rest, 0, openers);
    FirstOpenerInSuffix(raw, offset, 0, openers);
    if start < |rest| {
      ScanInSuffix(raw, offset, start, START, openers);
      var end := ScanEnd(rest, start, START, openers);
      if end.Some? {
        assert rest[start..end.value + 1] == raw[offset + start..offset + end.value + 1];
      }
    }
  }

  // From `offset` on nothing can be taken: no opener follows, or the next one is never closed.
  ghost predicate NothingToTake(raw: string, offset: nat, openers: set<char>) {
    && offset <= |raw|
    && var start := FirstOpener(raw, offset, openers);
       start == |raw| || NeverClosed(raw, start, openers)
  }

  // `f` is a fragment after `before`, with no opener in the gap.
  ghost predicate FollowsGap(raw: string, before: nat, f: Fragment, openers: set<char>) {
    && IsFragment(raw, f, openers)
    && before <= f.startIndex
    && forall k :: before <= k < f.startIndex ==> !IsOpener(raw[k], openers)
  }

  lemma ExtractTakesTheNext(raw: string, offset: nat, openers: set<char>)
    requires offset <= |raw|
    ensures match ExtractFrom(raw, offset, openers) {
              case None => NothingToTake(raw, offset, openers)
              case Some(f) => FollowsGap(raw, offset, f, openers)
            }
  {
    var start := FirstOpener(raw, offset, openers);
    if start < |raw| {
      ScanDelimits(raw, start, openers);
    }
  }

  // Where the search for the fragment at `i` starts.
  function SearchStart(fs: seq<Fragment>, i: nat, offset: nat): nat
    requires i <= |fs|
  {
    if i == 0 then offset else fs[i - 1].endIndex + 1
  }

  lemma SearchStartCons(f: Fragment, rest: seq<Fragment>, i: nat, offset: nat)
    requires i <= |rest|
    ensures SearchStart([f] + rest, i + 1, offset) == SearchStart(rest, i, f.endIndex + 1)
  {
  }

  // Each fragment, with the end of the one before it.
  lemma {:induction false} FragmentsFollow(raw: string, offset: nat, openers: set<char>, fs: seq<Fragment>, i: nat)
    requires offset <= |raw| && fs == FragmentsFrom(raw, offset, openers) && i < |fs|
    ensures FollowsGap(raw, SearchStart(fs, i, offset), fs[i], openers)
    decreases i
  {
    NextFragments(raw, offset, openers);
    ExtractTakesTheNext(raw, offset, openers);
    if i == 0 {
    } else {
      var f := ExtractFrom(raw, offset, openers).value;
      var rest := FragmentsFrom(raw, f.endIndex + 1, openers);
      FragmentsFollow(raw, f.endIndex + 1, openers, rest, i - 1);
      SearchStartCons(f, rest, i - 1, offset);
    }
  }

  // Every fragment is an exact slice at its reported indices, from an opener to its own closing delimiter, ending where the
  // delimiter stack is empty for the first time; fragments are in order and disjoint, with no opener in the gap before each.
  lemma FragmentsSound(raw: string, openers: set<char>, i: nat)
    requires i < |FragmentsFrom(raw, 0, openers)|
    ensures var fs := FragmentsFrom(raw, 0, openers);
            var before := if i == 0 then 0 else fs[i - 1].endIndex + 1;
            && IsFragment(raw, fs[i], openers)
            && before <= fs[i].startIndex
            && forall k :: before <= k < fs[i].startIndex ==> !IsOpener(raw[k], openers)
  {
    var fs := FragmentsFrom(raw, 0, openers);
    FragmentsFollow(raw, 0, openers, fs, i);
  }

  // After the last fragment nothing is left to take: either no opener follows, or the next one is never closed.
  lemma {:induction false} NothingLeft(raw: string, offset: nat, openers: set<char>)
    requires offset <= |raw|
    ensures var fs := FragmentsFrom(raw, offset, openers);
            NothingToTake(raw, SearchStart(fs, |fs|, offset), openers)
    decreases |raw| - offset
  {
    NextFragments(raw, offset, openers);
    var r := ExtractFrom(raw, offset, openers);
    if r.Some? {
      var next := r.value.endIndex + 1;
      var rest := FragmentsFrom(raw, next, openers);
      NothingLeft(raw, next, openers);
      SearchStartCons(r.value, rest, |rest|, offset);
    } else {
      ExtractTakesTheNext(raw, offset, openers);
    }
  }

  // ---------- Against a grammar ----------

  // A balanced text, as a tree: plain characters, string literals and groups.
  datatype Piece = Plain(c: char) | Literal(chars: seq<LiteralChar>) | Group(opener: char, body: seq<Piece>)

  function Ending(opener: char): char {
    if opener == '[' then ']' else '}'
  }

  // The characters that begin a group: braces and brackets, as far as they are asked for.
  predicate Opens(c: char, openers: set<char>) {
    c in openers && (c == '{' || c == '[')
  }

  function Render(pieces: seq<Piece>): string
    decreases pieces
  {
    if pieces == [] then "" else RenderPiece(pieces[0]) + Render(pieces[1..])
  }

  function RenderPiece(piece: Piece): string
    decreases piece
  {
    match piece
    case Plain(c) => [c]
    case Literal(chars) => "\"" + RenderLiteral('"', chars)
    case Group(opener, body) => [opener] + Render(body) + [Ending(opener)]
  }

  // What can stand in a group that ends with `close`: a character that neither opens nor closes anything, not even a closing
  // delimiter of the other kind; a literal; a group.
  ghost predicate GoodPiece(piece: Piece, close: char, openers: set<char>)
    decreases piece
  {
    match piece
    case Plain(c) => c != '"' && c != close && !Opens(c, openers)
    case Literal(chars) => GoodLiteral('"', chars)
    case Group(opener, body) => Opens(opener, openers) && GoodPieces(body, Ending(opener), openers)
  }

  ghost predicate GoodPieces(pieces: seq<Piece>, close: char, openers: set<char>)
    decreases pieces
  {
    pieces == [] || (GoodPiece(pieces[0], close, openers) && GoodPieces(pieces[1..], close, openers))
  }

  ghost predicate GoodGroup(group: Piece, openers: set<char>) {
    group.Group? && Opens(group.opener, openers) && GoodPieces(group.body, Ending(group.opener), openers)
  }

  // The innermost open group ends with `close`.
  predicate Inside(stack: string, close: char) {
    stack != "" && close == Closer(stack[|stack| - 1])
  }

  lemma OneStep(raw: string, i: nat, st: State, openers: set<char>)
    requires i < |raw| && !(Pops(st, raw[i], openers) && |st.stack| == 1)
    ensures ScanEnd(raw, i, st, openers) == ScanEnd(raw, i + 1, Next(st, raw[i], openers), openers)
  {
  }

  lemma ReadsEscape(raw: string, i: nat, c: char, rest: string, stack: string, openers: set<char>)
    requires At(raw, i, ['\\', c] + rest)
    ensures At(raw, i + 2, rest)
    ensures ScanEnd(raw, i, State(stack, true, false), openers) == ScanEnd(raw, i + 2, State(stack, true, false), openers)
  {
    AtSplit(raw, i, ['\\', c], rest);
    assert ['\\', c] == ['\\'] + [c];
    AtSplit(raw, i, ['\\'], [c]);
    AtSplit(raw, i + 1, [c], "");
    OneStep(raw, i, State(stack, true, false), openers);
    OneStep(raw, i + 1, State(stack, true, true), openers);
  }

  lemma {:induction false} ReadsLiteral(raw: string, i: nat, chars: seq<LiteralChar>, stack: string, openers: set<char>)
    requires At(raw, i, RenderLiteral('"', chars)) && GoodLiteral('"', chars)
    ensures ScanEnd(raw, i, State(stack, true, false), openers)
         == ScanEnd(raw, i + |RenderLiteral('"', chars)|, State(stack, false, false), openers)
    decreases |chars|
  {
    var st := State(stack, true, false);
    if chars == [] {
      AtSplit(raw, i, "\"", "");
      OneStep(raw, i, st, openers);
    } else {
      var rest := RenderLiteral('"', chars[1..]);
      assert GoodLiteral('"', chars[1..]);
      match chars[0] {
        case Bare(c) =>
          AtSplit(raw, i, [c], rest);
          OneStep(raw, i, st, openers);
          ReadsLiteral(raw, i + 1, chars[1..], stack, openers);
        case Escaped(c) =>
          ReadsEscape(raw, i, c, rest, stack, openers);
          ReadsLiteral(raw, i + 2, chars[1..], stack, openers);
      }
    }
  }

  // Inside a group, a good piece is read without changing the stack and without ending the scan.
  lemma {:induction false} ReadsPiece(raw: string, i: nat, piece: Piece, close: char, stack: string, openers: set<char>)
    requires At(raw, i, RenderPiece(piece)) && GoodPiece(piece, close, openers) && Inside(stack, close)
    ensures ScanEnd(raw, i, State(stack, false, false), openers)
         == ScanEnd(raw, i + |RenderPiece(piece)|, State(stack, false, false), openers)
    decreases piece, 1
  {
    var st := State(stack, false, false);
    match piece {
      case Plain(c) =>
        AtSplit(raw, i, [c], "");
        OneStep(raw, i, st, openers);
      case Literal(chars) =>
        AtSplit(raw, i, "\"", RenderLiteral('"', chars));
        OneStep(raw, i, st, openers);
        ReadsLiteral(raw, i + 1, chars, stack, openers);
      case Group(opener, body) =>
        var end := ReadsBody(raw, i, opener, body, stack, openers);
        OneStep(raw, end, State(stack + [opener], false, false), openers);
        assert (stack + [opener])[..|stack|] == stack;
    }
  }

  // A group up to its closing delimiter, which is then the innermost one.
  lemma {:induction false} ReadsBody(raw: string, i: nat, opener: char, body: seq<Piece>, stack: string, openers: set<char>)
    returns (end: nat)
    requires At(raw, i, RenderPiece(Group(opener, body))) && GoodGroup(Group(opener, body), openers)
    ensures end + 1 == i + |RenderPiece(Group(opener, body))| && end < |raw| && raw[i] == opener && raw[end] == Closer(opener)
    ensures ScanEnd(raw, i, State(stack, false, false), openers)
         == ScanEnd(raw, end, State(stack + [opener], false, false), openers)
    decreases Group(opener, body), 0
  {
    var text := Render(body);
    end := i + 1 + |text|;
    AtParts(raw, i, RenderPiece(Group(opener, body)), opener, text, [Closer(opener)]);
    AtFirst(raw, end, [Closer(opener)]);
    OneStep(raw, i, State(stack, false, false), openers);
    ReadsPieces(raw, i + 1, body, Closer(opener), stack + [opener], openers);
  }

  lemma {:induction false} ReadsPieces(raw: string, i: nat, pieces: seq<Piece>, close: char, stack: string, openers: set<char>)
    requires At(raw, i, Render(pieces)) && GoodPieces(pieces, close, openers) && Inside(stack, close)
    ensures ScanEnd(raw, i, State(stack, false, false), openers)
         == ScanEnd(raw, i + |Render(pieces)|, State(stack, false, false), openers)
    decreases pieces
  {
    if pieces == [] {
    } else {
      AtSplit(raw, i, RenderPiece(pieces[0]), Render(pieces[1..]));
      ReadsPiece(raw, i, pieces[0], close, stack, openers);
      ReadsPieces(raw, i + |RenderPiece(pieces[0])|, pieces[1..], close, stack, openers);
    }
  }

  lemma Middle(before: string, text: string, after: string)
    requires text != ""
    ensures var raw := before + text + after;
            && At(raw, |before|, text) && raw[|before|] == text[0]
            && forall k :: 0 <= k < |before| ==> raw[k] == before[k]
  {
    assert (before + text + after)[|before|..|before| + |text|] == text;
  }

  // A group of the grammar, after a text without openers and whatever follows it, is extracted exactly.
  lemma ExtractsGroup(before: string, group: Piece, after: string, openers: set<char>)
    requires GoodGroup(group, openers)
    requires forall k :: 0 <= k < |before| ==> !Opens(before[k], openers)
    ensures var text := RenderPiece(group);
            ExtractPrefix(before + text + after, openers) == Some(Fragment(text, |before|, |before| + |text| - 1))
  {
    Middle(before, RenderPiece(group), after);
    ExtractsGroupAt(before + RenderPiece(group) + after, |before|, group, openers);
  }

  lemma ExtractsGroupAt(raw: string, start: nat, group: Piece, openers: set<char>)
    requires GoodGroup(group, openers) && At(raw, start, RenderPiece(group))
    requires forall k :: 0 <= k < start ==> !Opens(raw[k], openers)
    ensures var text := RenderPiece(group);
            ExtractPrefix(raw, openers) == Some(Fragment(text, start, start + |text| - 1))
  {
    var opener := group.opener;
    var end := ReadsBody(raw, start, opener, group.body, "", openers);
    assert "" + [opener] == [opener];
    ScanStep(raw, end, State([opener], false, false), openers);
    FirstOpenerIs(raw, 0, start, openers);
    AtSlice(raw, start, RenderPiece(group));
  }

  lemma {:induction false} FirstOpenerIs(raw: string, i: nat, first: nat, openers: set<char>)
    requires i <= first < |raw| && IsOpener(raw[first], openers)
    requires forall k :: i <= k < first ==> !IsOpener(raw[k], openers)
    ensures FirstOpener(raw, i, openers) == first
    decreases first - i
  {
    if i == first {
    } else {
      FirstOpenerIs(raw, i + 1, first, openers);
    }
  }

  // ---------- Nothing else is extracted ----------

  // What the scan has read is what the grammar renders: a literal up to its closing quote.
  lemma {:induction false} LiteralRead(raw: string, i: nat, stack: string, openers: set<char>, end: nat)
    returns (chars: seq<LiteralChar>)
    requires i <= |raw| && ScanEnd(raw, i, State(stack, true, false), openers) == Some(end)
    ensures GoodLiteral('"', chars) && At(raw, i, RenderLiteral('"', chars))
    ensures ScanEnd(raw, i + |RenderLiteral('"', chars)|, State(stack, false, false), openers) == Some(end)
    decreases |raw| - i
  {
    if raw[i] == '"' {
      chars := [];
    } else if raw[i] == '\\' {
      assert ScanEnd(raw, i + 1, State(stack, true, true), openers) == Some(end);
      var rest := LiteralRead(raw, i + 2, stack, openers, end);
      chars := [Escaped(raw[i + 1])] + rest;
      AtJoin(raw, i, [raw[i], raw[i + 1]], RenderLiteral('"', rest));
    } else {
      var rest := LiteralRead(raw, i + 1, stack, openers, end);
      chars := [Bare(raw[i])] + rest;
      AtJoin(raw, i, [raw[i]], RenderLiteral('"', rest));
    }
  }

  // The pieces that the scan reads in one group, up to the delimiter that closes it.
  lemma {:induction false} PiecesRead(raw: string, i: nat, close: char, stack: string, openers: set<char>, end: nat)
    returns (pieces: seq<Piece>)
    requires i <= |raw| && Inside(stack, close) && ScanEnd(raw, i, State(stack, false, false), openers) == Some(end)
    ensures GoodPieces(pieces, close, openers) && At(raw, i, Render(pieces))
    ensures var j := i + |Render(pieces)|;
            j < |raw| && raw[j] == close && ScanEnd(raw, j, State(stack, false, false), openers) == Some(end)
    decreases |raw| - i
  {
    if raw[i] == close {
      pieces := [];
    } else {
      var piece := PieceRead(raw, i, close, stack, openers, end);
      var text := RenderPiece(piece);
      var rest := PiecesRead(raw, i + |text|, close, stack, openers, end);
      pieces := [piece] + rest;
      AtJoin(raw, i, text, Render(rest));
    }
  }

  lemma {:induction false} PieceRead(raw: string, i: nat, close: char, stack: string, openers: set<char>, end: nat)
    returns (piece: Piece)
    requires i < |raw| && Inside(stack, close) && raw[i] != close
    requires ScanEnd(raw, i, State(stack, false, false), openers) == Some(end)
    ensures GoodPiece(piece, close, openers) && At(raw, i, RenderPiece(piece)) && RenderPiece(piece) != ""
    ensures ScanEnd(raw, i + |RenderPiece(piece)|, State(stack, false, false), openers) == Some(end)
    decreases |raw| - i, 1
  {
    OneStep(raw, i, State(stack, false, false), openers);
    if raw[i] == '"' {
      var chars := LiteralRead(raw, i + 1, stack, openers, end);
      piece := Literal(chars);
      AtJoin(raw, i, "\"", RenderLiteral('"', chars));
    } else if IsOpener(raw[i], openers) {
      piece := GroupRead(raw, i, stack, openers, end);
    } else {
      piece := Plain(raw[i]);
    }
  }

  lemma {:induction false} GroupRead(raw: string, i: nat, stack: string, openers: set<char>, end: nat) returns (piece: Piece)
    requires i < |raw| && stack != "" && IsOpener(raw[i], openers)
    requires ScanEnd(raw, i + 1, State(stack + [raw[i]], false, false), openers) == Some(end)
    ensures GoodGroup(piece, openers) && At(raw, i, RenderPiece(piece)) && RenderPiece(piece) != ""
    ensures ScanEnd(raw, i + |RenderPiece(piece)|, State(stack, false, false), openers) == Some(end)
    decreases |raw| - i, 0
  {
    var opener := raw[i];
    var body := PiecesRead(raw, i + 1, Closer(opener), stack + [opener], openers, end);
    piece := Group(opener, body);
    var text := Render(body);
    GroupJoin(raw, i, opener, text, Closer(opener));
    OneStep(raw, i + 1 + |text|, State(stack + [opener], false, false), openers);
    assert (stack + [opener])[..|stack|] == stack;
  }

  lemma GroupJoin(raw: string, i: nat, opener: char, text: string, close: char)
    requires i + 1 + |text| < |raw| && raw[i] == opener && At(raw, i + 1, text) && raw[i + 1 + |text|] == close
    ensures At(raw, i, [opener] + text + [close])
  {
    AtJoin(raw, i, [opener], text);
    AtJoin(raw, i, [opener] + text, [close]);
  }

  // `group` stands at its indices in `raw`, and no opener before it.
  ghost predicate GroupFirst(raw: string, start: nat, group: Piece, openers: set<char>) {
    GoodGroup(group, openers) && At(raw, start, RenderPiece(group)) && forall k :: 0 <= k < start ==> !Opens(raw[k], openers)
  }

  // A fragment is extracted exactly when the first opener begins a group of the grammar, and then it is this group.
  lemma ExtractedIff(raw: string, openers: set<char>)
    ensures ExtractPrefix(raw, openers).Some? <==> exists start: nat, group :: GroupFirst(raw, start, group, openers)
    ensures forall start: nat, group :: GroupFirst(raw, start, group, openers) ==>
              ExtractPrefix(raw, openers) == Some(Fragment(RenderPiece(group), start, start + |RenderPiece(group)| - 1))
  {
    forall start: nat, group | GroupFirst(raw, start, group, openers)
      ensures ExtractPrefix(raw, openers) == Some(Fragment(RenderPiece(group), start, start + |RenderPiece(group)| - 1))
    {
      ExtractsGroupAt(raw, start, group, openers);
    }
    if ExtractPrefix(raw, openers).Some? {
      var start := FirstOpener(raw, 0, openers);
      var group := ExtractedGroup(raw, start, openers);
      assert GroupFirst(raw, start, group, openers);
    }
  }

  lemma ExtractedGroup(raw: string, start: nat, openers: set<char>) returns (group: Piece)
    requires start < |raw| && IsOpener(raw[start], openers) && ScanEnd(raw, start, START, openers).Some?
    ensures GoodGroup(group, openers) && At(raw, start, RenderPiece(group))
  {
    var opener, end := raw[start], ScanEnd(raw, start, START, openers).value;
    assert [] + [opener] == [opener];
    ScanStep(raw, start, START, openers);
    var body := PiecesRead(raw, start + 1, Closer(opener), [opener], openers, end);
    group := Group(opener, body);
    GroupJoin(raw, start, opener, Render(body), Closer(opener));
  }
}
