/**
 The brace matcher of quantagent/agent_planner.py that replaces one JavaScript function in a source text.
 It knows string literals with escapes, but no comments and no regular expression literals.
 */
module JsFunction {
  import opened Text
  import opened Wrappers

  // ---------- Searching ----------

  predicate OccursAt(s: string, p: string, i: nat) {
    i + |p| <= |s| && s[i..i + |p|] == p
  }

  // str.find, from an index on
  function Find(s: string, p: string, from: nat): (r: Option<nat>)
    requires from <= |s|
    ensures r.Some? ==> from <= r.value && OccursAt(s, p, r.value)
    ensures forall i :: from <= i && (r.Some? ==> i < r.value) ==> !OccursAt(s, p, i)
    decreases |s| - from
  {
    if OccursAt(s, p, from) then Some(from)
    else if from == |s| then None
    else Find(s, p, from + 1)
  }

  // ---------- Scanning ----------

  // What the scanner carries: the depth, the quote of the string it is in, and whether the last character was an escape.
  datatype Scan = Scan(depth: int, quote: Option<char>, escaped: bool)

  const OUTSIDE := Scan(0, None, false)

  predicate IsQuote(c: char) {
    c == '\'' || c == '"' || c == '`'
  }

  function Next(st: Scan, c: char, open: char, close: char): Scan {
    if st.quote.Some? then
      if st.escaped then st.(escaped := false)
      else if c == '\\' then st.(escaped := true)
      else if c == st.quote.value then st.(quote := None)
      else st
    else if IsQuote(c) then st.(quote := Some(c))
    else if c == open then st.(depth := st.depth + 1)
    else if c == close then st.(depth := st.depth - 1)
    else st
  }

  // The loop's exit: a closing character outside strings that brings the depth to zero.
  predicate Closes(st: Scan, c: char, open: char, close: char) {
    st.quote.None? && !IsQuote(c) && c != open && c == close && st.depth - 1 == 0
  }

  function MatchEnd(s: string, i: nat, st: Scan, open: char, close: char): (r: Option<nat>)
    requires i <= |s|
    ensures r.Some? ==> i <= r.value < |s|
    decreases |s| - i
  {
    if i == |s| then None
    else if Closes(st, s[i], open, close) then Some(i)
    else MatchEnd(s, i + 1, Next(st, s[i], open, close), open, close)
  }

  function SkipSpace(s: string, i: nat): (r: nat)
    requires i <= |s|
    ensures i <= r <= |s| && (r < |s| ==> !IsSpace(s[r])) && forall j :: i <= j < r ==> IsSpace(s[j])
    decreases |s| - i
  {
    if i < |s| && IsSpace(s[i]) then SkipSpace(s, i + 1) else i
  }

  function Marker(name: string): string {
    "function " + name + "("
  }

  // The opening brace of the body whose parameter list opens at `paren`.
  function BraceAfter(source: string, paren: nat): (r: Option<nat>)
    requires paren <= |source|
    ensures r.Some? ==> paren < r.value < |source| && source[r.value] == '{'
  {
    match MatchEnd(source, paren, OUTSIDE, '(', ')')
    case None => None
    case Some(parenEnd) =>
      var bodyStart := SkipSpace(source, parenEnd + 1);
      if bodyStart >= |source| || source[bodyStart] != '{' then None else Some(bodyStart)
  }

  // Where the function starts, and where its body's opening brace is.
  function BodyStart(source: string, name: string): (r: Option<(nat, nat)>)
    ensures r.Some? ==> r.value.0 < r.value.1 < |source| && source[r.value.1] == '{'
  {
    match Find(source, Marker(name), 0)
    case None => None
    case Some(start) =>
      match BraceAfter(source, start + |Marker(name)| - 1)
      case None => None
      case Some(brace) => Some((start, brace))
  }

  // The first and the last character of the function.
  function Extent(source: string, name: string): (r: Option<(nat, nat)>)
    ensures r.Some? ==> r.value.0 <= r.value.1 < |source|
  {
    match BodyStart(source, name)
    case None => None
    case Some((start, brace)) =>
      match MatchEnd(source, brace, OUTSIDE, '{', '}')
      case None => None
      case Some(end) => Some((start, end))
  }

  function ReplaceFunction(source: string, name: string, replacement: string): Option<string> {
    match Extent(source, name)
    case None => None
    case Some((start, end)) => Some(source[..start] + replacement + source[end + 1..])
  }

  // ---------- The loops of the source ----------

  method MatchDelimiter(source: string, from: nat, open: char, close: char) returns (end: Option<nat>)
    requires from <= |source|
    ensures end == MatchEnd(source, from, OUTSIDE, open, close)
  {
    var depth := 0;
    var inString: Option<char> := None;
    var escaped := false;
    var index := from;
    while index < |source|
      invariant from <= index <= |source|
      invariant MatchEnd(source, from, OUTSIDE, open, close)
             == MatchEnd(source, index, Scan(depth, inString, escaped), open, close)
    {
      var c := source[index];
      if inString.Some? {
        if escaped {
          escaped := false;
        } else if c == '\\' {
          escaped := true;
        } else if c == inString.value {
          inString := None;
        }
      } else if c == '\'' || c == '"' || c == '`' {
        inString := Some(c);
      } else if c == open {
        depth := depth + 1;
      } else if c == close {
        depth := depth - 1;
        if depth == 0 {
          return Some(index);
        }
      }
      index := index + 1;
    }
    end := None;
  }

  method JavascriptFunctionBodyStart(source: string, name: string) returns (body: Option<(nat, nat)>)
    ensures body == BodyStart(source, name)
  {
    var start := Find(source, Marker(name), 0);
    if start.None? {
      return None;
    }
    var parenEnd := MatchDelimiter(source, start.value + |Marker(name)| - 1, '(', ')');
    if parenEnd.None? {
      return None;
    }
    var bodyStart := parenEnd.value + 1;
    while bodyStart < |source| && IsSpace(source[bodyStart])
      invariant parenEnd.value + 1 <= bodyStart <= |source|
      invariant SkipSpace(source, parenEnd.value + 1) == SkipSpace(source, bodyStart)
    {
      bodyStart := bodyStart + 1;
    }
    if bodyStart >= |source| || source[bodyStart] != '{' {
      return None;
    }
    body := Some((start.value, bodyStart));
  }

  method ReplaceJavascriptFunction(source: string, name: string, replacement: string) returns (replaced: Option<string>)
    ensures replaced == ReplaceFunction(source, name, replacement)
  {
    var body := JavascriptFunctionBodyStart(source, name);
    if body.None? {
      return None;
    }
    var (start, brace) := body.value;
    var end := MatchDelimiter(source, brace, '{', '}');
    if end.None? {
      return None;
    }
    replaced := Some(source[..start] + replacement + source[end.value + 1..]);
  }

  // ---------- Where the scan stops ----------

  // The scanner's state after the characters [from, upto).
  function StateAt(s: string, from: nat, upto: nat, open: char, close: char): Scan
    requires from <= upto <= |s|
    decreases upto
  {
    if from == upto then OUTSIDE else Next(StateAt(s, from, upto - 1, open, close), s[upto - 1], open, close)
  }

  lemma {:induction false} ScanFrom(s: string, from: nat, i: nat, open: char, close: char)
    requires from < i <= |s| && open != close && !IsQuote(open) && !IsQuote(close)
    requires forall k :: from < k <= i ==> StateAt(s, from, k, open, close).depth > 0
    ensures var r := MatchEnd(s, i, StateAt(s, from, i, open, close), open, close);
            && (r.Some? ==> StateAt(s, from, r.value + 1, open, close).depth == 0)
            && (r.Some? ==> forall k :: from < k <= r.value ==> StateAt(s, from, k, open, close).depth > 0)
            && (r.None? ==> forall k :: from < k <= |s| ==> StateAt(s, from, k, open, close).depth > 0)
    decreases |s| - i
  {
    if i == |s| {
    } else {
      var st := StateAt(s, from, i, open, close);
      assert StateAt(s, from, i + 1, open, close) == Next(st, s[i], open, close);
      if !Closes(st, s[i], open, close) {
        ScanFrom(s, from, i + 1, open, close);
      }
    }
  }

  // From an opening character on, the scan ends at the first character after which the depth, counted outside strings, is
  // zero again; it finds nothing exactly when that never happens.
  lemma EndsAtFirstReturnToZero(s: string, from: nat, open: char, close: char)
    requires from < |s| && s[from] == open && open != close && !IsQuote(open) && !IsQuote(close)
    ensures var r := MatchEnd(s, from, OUTSIDE, open, close);
            && (r.Some? ==> r.value > from && s[r.value] == close && StateAt(s, from, r.value + 1, open, close).depth == 0)
            && (r.Some? ==> forall k :: from < k <= r.value ==> StateAt(s, from, k, open, close).depth > 0)
            && (r.None? <==> forall k :: from < k <= |s| ==> StateAt(s, from, k, open, close).depth > 0)
  {
    assert StateAt(s, from, from + 1, open, close) == Next(OUTSIDE, s[from], open, close);
    ScanFrom(s, from, from + 1, open, close);
    var r := MatchEnd(s, from, OUTSIDE, open, close);
    if r.Some? {
      var k := r.value;
      assert StateAt(s, from, k + 1, open, close) == Next(StateAt(s, from, k, open, close), s[k], open, close);
    }
  }

  // A replacement keeps all text before the first occurrence of the function and after its matching brace.
  lemma KeepsTheRest(source: string, name: string, replacement: string)
    requires ReplaceFunction(source, name, replacement).Some?
    ensures var result := ReplaceFunction(source, name, replacement).value;
            var (start, end) := Extent(source, name).value;
            && OccursAt(source, Marker(name), start) && (forall i :: 0 <= i < start ==> !OccursAt(source, Marker(name), i))
            && source[end] == '}'
            && result[..start] == source[..start]
            && result[start..start + |replacement|] == replacement
            && result[start + |replacement|..] == source[end + 1..]
  {
    var (start, brace) := BodyStart(source, name).value;
    EndsAtFirstReturnToZero(source, brace, '{', '}');
  }

  // ---------- Replacing again ----------

  // The `n` characters of `a` from `i` on are those of `b` from `k` on.
  ghost predicate Same(a: string, i: nat, b: string, k: nat, n: nat) {
    i + n <= |a| && k + n <= |b| && a[i..i + n] == b[k..k + n]
  }

  lemma SameTail(a: string, i: nat, b: string, k: nat, n: nat, skip: nat)
    requires Same(a, i, b, k, n) && skip <= n
    ensures Same(a, i + skip, b, k + skip, n - skip)
    ensures n > 0 ==> b[k] == a[i]
  {
    assert a[i + skip..i + n] == a[i..i + n][skip..];
    assert b[k + skip..k + n] == b[k..k + n][skip..];
    assert n > 0 ==> a[i] == a[i..i + n][0] && b[k] == b[k..k + n][0];
  }

  lemma {:induction false} SameScan(a: string, i: nat, b: string, k: nat, n: nat, st: Scan, open: char, close: char)
    requires Same(a, i, b, k, n) && MatchEnd(a, i, st, open, close).Some? && MatchEnd(a, i, st, open, close).value < i + n
    ensures MatchEnd(b, k, st, open, close) == Some(MatchEnd(a, i, st, open, close).value - i + k)
    decreases n
  {
    SameTail(a, i, b, k, n, 1);
    if Closes(st, a[i], open, close) {
    } else {
      SameScan(a, i + 1, b, k + 1, n - 1, Next(st, a[i], open, close), open, close);
    }
  }

  lemma {:induction false} SameSkip(a: string, i: nat, b: string, k: nat, n: nat)
    requires Same(a, i, b, k, n) && SkipSpace(a, i) < i + n
    ensures SkipSpace(b, k) == SkipSpace(a, i) - i + k
    decreases n
  {
    SameTail(a, i, b, k, n, 1);
    if !IsSpace(a[i]) {
    } else {
      SameSkip(a, i + 1, b, k + 1, n - 1);
    }
  }

  // `text` is one function of that name, from its first to its last character.
  ghost predicate IsOneFunction(text: string, name: string) {
    text != "" && Extent(text, name) == Some((0, |text| - 1))
  }

  lemma OccursInPrefix(u: string, rest: string, p: string, i: nat)
    requires i + |p| <= |u|
    ensures OccursAt(u + rest, p, i) <==> OccursAt(u, p, i)
  {
    assert (u + rest)[i..i + |p|] == u[i..i + |p|];
  }

  lemma FirstOccurrenceStays(u: string, rest: string, other: string, p: string)
    requires |p| <= |u| && Find(u + rest, p, 0) == Some(|u| - |p|)
    ensures Find(u + other, p, 0) == Some(|u| - |p|)
  {
    var start := |u| - |p|;
    OccursInPrefix(u, rest, p, start);
    OccursInPrefix(u, other, p, start);
    forall i | 0 <= i < start ensures !OccursAt(u + other, p, i) {
      OccursInPrefix(u, rest, p, i);
      OccursInPrefix(u, other, p, i);
    }
  }

  // After a replacement that starts with the marker, the first occurrence is where it was.
  lemma FoundAgain(source: string, marker: string, replacement: string, start: nat, post: string)
    requires Find(source, marker, 0) == Some(start) && Find(replacement, marker, 0) == Some(0)
    ensures Find(source[..start] + replacement + post, marker, 0) == Some(start)
  {
    var u := source[..start] + marker;
    var rest, other := source[start + |marker|..], replacement[|marker|..] + post;
    assert source == u + rest;
    assert replacement == marker + replacement[|marker|..];
    assert source[..start] + replacement + post == u + other;
    FirstOccurrenceStays(u, rest, other, marker);
  }

  lemma ScanInPlace(text: string, out: string, start: nat, i: nat, open: char, close: char)
    requires Same(text, 0, out, start, |text|) && i <= |text| && MatchEnd(text, i, OUTSIDE, open, close).Some?
    ensures MatchEnd(out, start + i, OUTSIDE, open, close) == Some(start + MatchEnd(text, i, OUTSIDE, open, close).value)
  {
    SameTail(text, 0, out, start, |text|, i);
    SameScan(text, i, out, start + i, |text| - i, OUTSIDE, open, close);
  }

  lemma SkipInPlace(text: string, out: string, start: nat, i: nat)
    requires Same(text, 0, out, start, |text|) && i <= |text| && SkipSpace(text, i) < |text|
    ensures SkipSpace(out, start + i) == start + SkipSpace(text, i) < |out|
    ensures out[start + SkipSpace(text, i)] == text[SkipSpace(text, i)]
  {
    SameTail(text, 0, out, start, |text|, i);
    SameSkip(text, i, out, start + i, |text| - i);
    SameTail(text, 0, out, start, |text|, SkipSpace(text, i));
    SameTail(text, SkipSpace(text, i), out, start + SkipSpace(text, i), |text| - SkipSpace(text, i), 0);
  }

  lemma BraceInPlace(text: string, out: string, start: nat, paren: nat)
    requires Same(text, 0, out, start, |text|) && paren <= |text| && BraceAfter(text, paren).Some?
    ensures BraceAfter(out, start + paren) == Some(start + BraceAfter(text, paren).value)
  {
    var parenEnd := MatchEnd(text, paren, OUTSIDE, '(', ')').value;
    ScanInPlace(text, out, start, paren, '(', ')');
    SkipInPlace(text, out, start, parenEnd + 1);
  }

  lemma ExtentAt(text: string, name: string, out: string, start: nat)
    requires IsOneFunction(text, name)
    requires Find(out, Marker(name), 0) == Some(start) && Same(text, 0, out, start, |text|)
    ensures Extent(out, name) == Some((start, start + |text| - 1))
  {
    var brace := OneFunctionParts(text, name);
    BraceInPlace(text, out, start, |Marker(name)| - 1);
    ScanInPlace(text, out, start, brace, '{', '}');
    ExtentFromParts(out, name, start, start + brace, start + |text| - 1);
  }

  lemma OneFunctionParts(text: string, name: string) returns (brace: nat)
    requires IsOneFunction(text, name)
    ensures |Marker(name)| - 1 <= |text| && BraceAfter(text, |Marker(name)| - 1) == Some(brace)
    ensures brace <= |text| && MatchEnd(text, brace, OUTSIDE, '{', '}') == Some(|text| - 1)
  {
    brace := BraceAfter(text, |Marker(name)| - 1).value;
  }

  lemma ExtentFromParts(source: string, name: string, start: nat, brace: nat, end: nat)
    requires Find(source, Marker(name), 0) == Some(start)
    requires BraceAfter(source, start + |Marker(name)| - 1) == Some(brace)
    requires MatchEnd(source, brace, OUTSIDE, '{', '}') == Some(end)
    ensures Extent(source, name) == Some((start, end))
  {
  }

  lemma ExtentInPlace(source: string, name: string, replacement: string, start: nat, post: string)
    requires IsOneFunction(replacement, name) && Find(source, Marker(name), 0) == Some(start)
    ensures Extent(source[..start] + replacement + post, name) == Some((start, start + |replacement| - 1))
  {
    var out := source[..start] + replacement + post;
    FoundAgain(source, Marker(name), replacement, start, post);
    assert replacement[0..|replacement|] == replacement && out[start..start + |replacement|] == replacement;
    ExtentAt(replacement, name, out, start);
  }

  // The last replacement wins: replacing by one function of the same name and then again by anything is replacing once.
  lemma LastReplacementWins(source: string, name: string, first: string, second: string)
    requires IsOneFunction(first, name) && Extent(source, name).Some?
    ensures ReplaceFunction(ReplaceFunction(source, name, first).value, name, second) == ReplaceFunction(source, name, second)
  {
    var (start, end) := Extent(source, name).value;
    ExtentStarts(source, name);
    ExtentInPlace(source, name, first, start, source[end + 1..]);
    ReplacePart(source[..start], first, source[end + 1..], name, second);
  }

  lemma ExtentStarts(source: string, name: string)
    requires Extent(source, name).Some?
    ensures Find(source, Marker(name), 0) == Some(Extent(source, name).value.0)
  {
  }

  lemma ReplacePart(pre: string, text: string, post: string, name: string, replacement: string)
    requires text != "" && Extent(pre + text + post, name) == Some((|pre|, |pre| + |text| - 1))
    ensures ReplaceFunction(pre + text + post, name, replacement) == Some(pre + replacement + post)
  {
    var out := pre + text + post;
    assert out[..|pre|] == pre && out[|pre| + |text|..] == post;
  }

  // Replacing twice by the same single function is replacing once.
  lemma ReplaceIdempotent(source: string, name: string, replacement: string)
    requires IsOneFunction(replacement, name) && ReplaceFunction(source, name, replacement).Some?
    ensures var once := ReplaceFunction(source, name, replacement);
            ReplaceFunction(once.value, name, replacement) == once
  {
    LastReplacementWins(source, name, replacement, replacement);
  }
}
