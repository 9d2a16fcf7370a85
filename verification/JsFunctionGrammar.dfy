/**
 The functions that the brace matcher reads, as a grammar: a parameter list and a body of nested groups, with string literals in all
 three quotes in which any delimiter may stand.
 */
module JsFunctionGrammar {
  import opened JsFunction
  import opened Literals
  import opened Sequences
  import opened Text
  import opened Wrappers

  // ---------- The grammar ----------

  // A piece of text between delimiters of one kind: another character, a string literal, or a nested group.
  datatype Piece = Plain(c: char) | Literal(quote: char, chars: seq<LiteralChar>) | Group(body: seq<Piece>)

  function Render(pieces: seq<Piece>, open: char, close: char): string
    decreases pieces
  {
    if pieces == [] then "" else RenderPiece(pieces[0], open, close) + Render(pieces[1..], open, close)
  }

  function RenderPiece(piece: Piece, open: char, close: char): string
    decreases piece
  {
    match piece
    case Plain(c) => [c]
    case Literal(quote, chars) => [quote] + RenderLiteral(quote, chars)
    case Group(body) => [open] + Render(body, open, close) + [close]
  }

  ghost predicate GoodPiece(piece: Piece, open: char, close: char)
    decreases piece
  {
    match piece
    case Plain(c) => c != open && c != close && c != '\'' && c != '"' && c != '`'
    case Literal(quote, chars) => (quote == '\'' || quote == '"' || quote == '`') && GoodLiteral(quote, chars)
    case Group(body) => GoodPieces(body, open, close)
  }

  ghost predicate GoodPieces(pieces: seq<Piece>, open: char, close: char)
    decreases pieces
  {
    pieces == [] || (GoodPiece(pieces[0], open, close) && GoodPieces(pieces[1..], open, close))
  }

  // A function: its parameters, the space before its body, and its body.
  datatype JsText = JsText(parameters: seq<Piece>, space: string, body: seq<Piece>)

  ghost predicate GoodFunction(f: JsText) {
    && GoodPieces(f.parameters, '(', ')')
    && GoodPieces(f.body, '{', '}')
    && forall k :: 0 <= k < |f.space| ==> IsSpace(f.space[k])
  }

  function ParameterText(f: JsText): string {
    RenderPiece(Group(f.parameters), '(', ')')
  }

  function BodyText(f: JsText): string {
    RenderPiece(Group(f.body), '{', '}')
  }

  function RenderFunction(name: string, f: JsText): string {
    "function " + name + ParameterText(f) + f.space + BodyText(f)
  }

  // ---------- Scanning the grammar ----------

  ghost predicate Delimiters(open: char, close: char) {
    open != close && !IsQuote(open) && !IsQuote(close)
  }

  lemma OneStep(s: string, i: nat, st: Scan, open: char, close: char)
    requires i < |s| && !Closes(st, s[i], open, close)
    ensures MatchEnd(s, i, st, open, close) == MatchEnd(s, i + 1, Next(st, s[i], open, close), open, close)
  {
  }

  lemma ReadsEscape(s: string, i: nat, c: char, rest: string, depth: int, quote: char, open: char, close: char)
    requires At(s, i, ['\\', c] + rest)
    ensures At(s, i + 2, rest)
    ensures MatchEnd(s, i, Scan(depth, Some(quote), false), open, close)
         == MatchEnd(s, i + 2, Scan(depth, Some(quote), false), open, close)
  {
    AtSplit(s, i, ['\\', c], rest);
    assert ['\\', c] == ['\\'] + [c];
    AtSplit(s, i, ['\\'], [c]);
    AtSplit(s, i + 1, [c], "");
    OneStep(s, i, Scan(depth, Some(quote), false), open, close);
    OneStep(s, i + 1, Scan(depth, Some(quote), true), open, close);
  }

  lemma {:induction false} ReadsLiteral(
    s: string, i: nat, quote: char, chars: seq<LiteralChar>, depth: int, open: char, close: char)
    requires At(s, i, RenderLiteral(quote, chars)) && IsQuote(quote) && GoodLiteral(quote, chars)
    ensures MatchEnd(s, i, Scan(depth, Some(quote), false), open, close)
         == MatchEnd(s, i + |RenderLiteral(quote, chars)|, Scan(depth, None, false), open, close)
    decreases |chars|
  {
    var st := Scan(depth, Some(quote), false);
    if chars == [] {
      AtFirst(s, i, [quote]);
      OneStep(s, i, st, open, close);
    } else {
      var rest := RenderLiteral(quote, chars[1..]);
      assert GoodLiteral(quote, chars[1..]);
      match chars[0] {
        case Bare(c) =>
          AtSplit(s, i, [c], rest);
          OneStep(s, i, st, open, close);
          ReadsLiteral(s, i + 1, quote, chars[1..], depth, open, close);
        case Escaped(c) =>
          ReadsEscape(s, i, c, rest, depth, quote, open, close);
          ReadsLiteral(s, i + 2, quote, chars[1..], depth, open, close);
      }
    }
  }

  // Inside a group, a good piece is read without changing the depth and without ending the scan.
  lemma {:induction false} ReadsPiece(s: string, i: nat, piece: Piece, depth: int, open: char, close: char)
    requires At(s, i, RenderPiece(piece, open, close)) && GoodPiece(piece, open, close) && Delimiters(open, close) && depth > 0
    ensures MatchEnd(s, i, Scan(depth, None, false), open, close)
         == MatchEnd(s, i + |RenderPiece(piece, open, close)|, Scan(depth, None, false), open, close)
    decreases piece, 1
  {
    var st := Scan(depth, None, false);
    match piece {
      case Plain(c) =>
        AtFirst(s, i, [c]);
        OneStep(s, i, st, open, close);
      case Literal(quote, chars) =>
        AtSplit(s, i, [quote], RenderLiteral(quote, chars));
        OneStep(s, i, st, open, close);
        ReadsLiteral(s, i + 1, quote, chars, depth, open, close);
      case Group(body) =>
        var end := ReadsBody(s, i, body, depth, open, close);
        OneStep(s, end, Scan(depth + 1, None, false), open, close);
    }
  }

  // A group up to its closing delimiter.
  lemma {:induction false} ReadsBody(s: string, i: nat, body: seq<Piece>, depth: int, open: char, close: char) returns (end: nat)
    requires At(s, i, RenderPiece(Group(body), open, close)) && GoodPieces(body, open, close) && Delimiters(open, close) && depth >= 0
    ensures end + 1 == i + |RenderPiece(Group(body), open, close)| && end < |s| && s[i] == open && s[end] == close
    ensures MatchEnd(s, i, Scan(depth, None, false), open, close) == MatchEnd(s, end, Scan(depth + 1, None, false), open, close)
    decreases Group(body), 0
  {
    var text := Render(body, open, close);
    end := i + 1 + |text|;
    AtParts(s, i, RenderPiece(Group(body), open, close), open, text, [close]);
    AtFirst(s, end, [close]);
    OneStep(s, i, Scan(depth, None, false), open, close);
    ReadsPieces(s, i + 1, body, depth + 1, open, close);
  }

  lemma {:induction false} ReadsPieces(s: string, i: nat, pieces: seq<Piece>, depth: int, open: char, close: char)
    requires At(s, i, Render(pieces, open, close)) && GoodPieces(pieces, open, close) && Delimiters(open, close) && depth > 0
    ensures MatchEnd(s, i, Scan(depth, None, false), open, close)
         == MatchEnd(s, i + |Render(pieces, open, close)|, Scan(depth, None, false), open, close)
    decreases pieces
  {
    if pieces == [] {
    } else {
      var first := RenderPiece(pieces[0], open, close);
      AtSplit(s, i, first, Render(pieces[1..], open, close));
      ReadsPiece(s, i, pieces[0], depth, open, close);
      ReadsPieces(s, i + |first|, pieces[1..], depth, open, close);
    }
  }

  // From its first character, a group is read to its last.
  lemma MatchesGroup(s: string, i: nat, body: seq<Piece>, open: char, close: char)
    requires At(s, i, RenderPiece(Group(body), open, close)) && GoodPieces(body, open, close) && Delimiters(open, close)
    ensures MatchEnd(s, i, OUTSIDE, open, close) == Some(i + |RenderPiece(Group(body), open, close)| - 1)
  {
    var end := ReadsBody(s, i, body, 0, open, close);
  }

  // ---------- Replacing a function of the grammar ----------

  lemma {:induction false} SkipsSpace(s: string, i: nat, space: string)
    requires At(s, i, space) && i + |space| < |s| && !IsSpace(s[i + |space|])
    requires forall k :: 0 <= k < |space| ==> IsSpace(space[k])
    ensures SkipSpace(s, i) == i + |space|
  {
    forall j | i <= j < i + |space| ensures IsSpace(s[j]) {
      assert s[i + (j - i)] == space[j - i];
    }
  }

  // Where the parts of a function stand.
  lemma FunctionParts(s: string, start: nat, name: string, f: JsText)
    requires At(s, start, RenderFunction(name, f))
    ensures |Marker(name)| > 0 && At(s, start, Marker(name))
    ensures var paren := start + |Marker(name)| - 1;
            var brace := paren + |ParameterText(f)| + |f.space|;
            && At(s, paren, ParameterText(f)) && At(s, paren + |ParameterText(f)|, f.space) && At(s, brace, BodyText(f))
            && brace < |s| && s[brace] == '{' && start + |RenderFunction(name, f)| == brace + |BodyText(f)|
  {
    var head := "function " + name;
    var parameters, body := ParameterText(f), BodyText(f);
    assert Marker(name) == head + "(";
    assert RenderFunction(name, f) == head + parameters + f.space + body;
    AtSplit(s, start, head + parameters + f.space, body);
    AtSplit(s, start, head + parameters, f.space);
    AtSplit(s, start, head, parameters);
    assert parameters[0] == '(' && body[0] == '{';
    AtFirst(s, start + |head|, parameters);
    AtFirst(s, start + |head + parameters + f.space|, body);
    forall k | 0 <= k < |Marker(name)| ensures s[start + k] == Marker(name)[k] {
      assert k < |head| ==> s[start + k] == head[k];
    }
  }

  lemma FindsBrace(s: string, paren: nat, f: JsText)
    requires At(s, paren, ParameterText(f)) && GoodFunction(f)
    requires At(s, paren + |ParameterText(f)|, f.space)
    requires var brace := paren + |ParameterText(f)| + |f.space|; brace < |s| && s[brace] == '{'
    ensures BraceAfter(s, paren) == Some(paren + |ParameterText(f)| + |f.space|)
  {
    MatchesGroup(s, paren, f.parameters, '(', ')');
    assert !IsSpace('{') by {
      OutsideRanges('{' as int, SPACES);
    }
    SkipsSpace(s, paren + |ParameterText(f)|, f.space);
  }

  // A function of the grammar at the first occurrence of its marker is found from its first to its last character.
  lemma FindsFunction(s: string, start: nat, name: string, f: JsText)
    requires At(s, start, RenderFunction(name, f)) && GoodFunction(f) && Find(s, Marker(name), 0) == Some(start)
    ensures RenderFunction(name, f) != "" && Extent(s, name) == Some((start, start + |RenderFunction(name, f)| - 1))
  {
    FunctionParts(s, start, name, f);
    var paren := start + |Marker(name)| - 1;
    var brace := paren + |ParameterText(f)| + |f.space|;
    FindsBrace(s, paren, f);
    MatchesGroup(s, brace, f.body, '{', '}');
    ExtentFromParts(s, name, start, brace, brace + |BodyText(f)| - 1);
  }

  lemma FirstMarker(s: string, marker: string, start: nat)
    requires At(s, start, marker) && forall i :: 0 <= i < start ==> !OccursAt(s, marker, i)
    ensures Find(s, marker, 0) == Some(start)
  {
    AtSlice(s, start, marker);
    assert OccursAt(s, marker, start);
  }

  lemma StandsAfter(pre: string, text: string, post: string)
    ensures At(pre + text + post, |pre|, text)
  {
    assert (pre + text + post)[|pre|..|pre| + |text|] == text;
    AtSlice(pre + text + post, |pre|, text);
  }

  // A function of the grammar is replaced exactly, if its marker does not occur before.
  lemma ReplacesFunction(pre: string, name: string, f: JsText, post: string, replacement: string)
    requires GoodFunction(f)
    requires forall i :: 0 <= i < |pre| ==> !OccursAt(pre + RenderFunction(name, f) + post, Marker(name), i)
    ensures ReplaceFunction(pre + RenderFunction(name, f) + post, name, replacement) == Some(pre + replacement + post)
  {
    var text := RenderFunction(name, f);
    var s := pre + text + post;
    StandsAfter(pre, text, post);
    assert At(s, |pre|, Marker(name)) by {
      FunctionParts(s, |pre|, name, f);
    }
    FirstMarker(s, Marker(name), |pre|);
    FindsFunction(s, |pre|, name, f);
    ReplacePart(pre, text, post, name, replacement);
  }

  // With no parenthesis in the name, as in every name of JavaScript, this is so if the marker does not occur in the text before.
  lemma ReplacesNamedFunction(pre: string, name: string, f: JsText, post: string, replacement: string)
    requires GoodFunction(f) && '(' !in name
    requires forall i :: 0 <= i < |pre| ==> !OccursAt(pre, "function " + name + "(", i)
    ensures ReplaceFunction(pre + RenderFunction(name, f) + post, name, replacement) == Some(pre + replacement + post)
  {
    var text, marker := RenderFunction(name, f), Marker(name);
    var s := pre + text + post;
    StandsAfter(pre, text, post);
    FunctionParts(s, |pre|, name, f);
    assert s == pre + (text + post);
    forall i | 0 <= i < |pre| ensures !OccursAt(s, marker, i) {
      if i + |marker| <= |pre| {
        OccursInPrefix(pre, text + post, marker, i);
      } else {
        MarkerEndsOnce(s, name, i, |pre|);
      }
    }
    ReplacesFunction(pre, name, f, post, replacement);
  }

  // Two occurrences of the marker do not overlap.
  lemma MarkerEndsOnce(s: string, name: string, i: nat, k: nat)
    requires '(' !in name && At(s, k, Marker(name)) && i < k < i + |Marker(name)|
    ensures !OccursAt(s, Marker(name), i)
  {
    var marker, head := Marker(name), "function " + name;
    var end := i + |marker| - 1;
    assert marker == head + "(";
    assert s[k + (end - k)] == marker[end - k] == head[end - k] != '(';
    assert s[end] != '(';
    assert i + |marker| <= |s| ==> s[i..i + |marker|][|marker| - 1] == s[end];
  }

  // ---------- Nothing else is replaced ----------

  // What the scan has read is what the grammar renders: a literal up to its closing quote.
  lemma {:induction false} LiteralRead(s: string, i: nat, quote: char, depth: int, open: char, close: char, end: nat)
    returns (chars: seq<LiteralChar>)
    requires i <= |s| && MatchEnd(s, i, Scan(depth, Some(quote), false), open, close) == Some(end) && quote != '\\'
    ensures GoodLiteral(quote, chars) && At(s, i, RenderLiteral(quote, chars))
    ensures MatchEnd(s, i + |RenderLiteral(quote, chars)|, Scan(depth, None, false), open, close) == Some(end)
    decreases |s| - i
  {
    if s[i] == quote {
      chars := [];
    } else if s[i] == '\\' {
      assert MatchEnd(s, i + 1, Scan(depth, Some(quote), true), open, close) == Some(end);
      var rest := LiteralRead(s, i + 2, quote, depth, open, close, end);
      chars := [Escaped(s[i + 1])] + rest;
      AtJoin(s, i, [s[i], s[i + 1]], RenderLiteral(quote, rest));
    } else {
      var rest := LiteralRead(s, i + 1, quote, depth, open, close, end);
      chars := [Bare(s[i])] + rest;
      AtJoin(s, i, [s[i]], RenderLiteral(quote, rest));
    }
  }

  // The pieces that the scan reads at one depth, up to the delimiter that closes it.
  lemma {:induction false} PiecesRead(s: string, i: nat, depth: int, open: char, close: char, end: nat) returns (pieces: seq<Piece>)
    requires i <= |s| && depth > 0 && Delimiters(open, close)
    requires MatchEnd(s, i, Scan(depth, None, false), open, close) == Some(end)
    ensures GoodPieces(pieces, open, close) && At(s, i, Render(pieces, open, close))
    ensures var j := i + |Render(pieces, open, close)|;
            j < |s| && s[j] == close && MatchEnd(s, j, Scan(depth, None, false), open, close) == Some(end)
    decreases |s| - i
  {
    if s[i] == close {
      pieces := [];
    } else {
      var piece := PieceRead(s, i, depth, open, close, end);
      var text := RenderPiece(piece, open, close);
      var rest := PiecesRead(s, i + |text|, depth, open, close, end);
      pieces := [piece] + rest;
      AtJoin(s, i, text, Render(rest, open, close));
    }
  }

  lemma {:induction false} PieceRead(s: string, i: nat, depth: int, open: char, close: char, end: nat) returns (piece: Piece)
    requires i < |s| && depth > 0 && Delimiters(open, close) && s[i] != close
    requires MatchEnd(s, i, Scan(depth, None, false), open, close) == Some(end)
    ensures GoodPiece(piece, open, close) && At(s, i, RenderPiece(piece, open, close)) && RenderPiece(piece, open, close) != ""
    ensures MatchEnd(s, i + |RenderPiece(piece, open, close)|, Scan(depth, None, false), open, close) == Some(end)
    decreases |s| - i, 0
  {
    if IsQuote(s[i]) {
      var chars := LiteralRead(s, i + 1, s[i], depth, open, close, end);
      piece := Literal(s[i], chars);
      AtJoin(s, i, [s[i]], RenderLiteral(s[i], chars));
    } else if s[i] == open {
      var body := PiecesRead(s, i + 1, depth + 1, open, close, end);
      piece := Group(body);
      var text := Render(body, open, close);
      AtJoin(s, i, [s[i]], text);
      AtJoin(s, i, [s[i]] + text, [close]);
    } else {
      piece := Plain(s[i]);
    }
  }

  lemma GroupRead(s: string, i: nat, open: char, close: char, end: nat) returns (body: seq<Piece>)
    requires i < |s| && s[i] == open && Delimiters(open, close) && MatchEnd(s, i, OUTSIDE, open, close) == Some(end)
    ensures GoodPieces(body, open, close) && At(s, i, RenderPiece(Group(body), open, close))
    ensures end + 1 == i + |RenderPiece(Group(body), open, close)|
  {
    body := PiecesRead(s, i + 1, 1, open, close, end);
    var text := Render(body, open, close);
    AtJoin(s, i, [s[i]], text);
    AtJoin(s, i, [s[i]] + text, [close]);
  }

  lemma SpaceRead(s: string, i: nat) returns (space: string)
    requires i <= |s|
    ensures At(s, i, space) && SkipSpace(s, i) == i + |space| && forall k :: 0 <= k < |space| ==> IsSpace(space[k])
  {
    space := s[i..SkipSpace(s, i)];
  }

  lemma HeadRead(s: string, start: nat, name: string)
    requires OccursAt(s, Marker(name), start)
    ensures var head := "function " + name;
            At(s, start, head) && |Marker(name)| == |head| + 1 && start + |head| < |s| && s[start + |head|] == '('
  {
    var head := "function " + name;
    AtSlice(s, start, Marker(name));
    assert Marker(name) == head + "(";
    AtSplit(s, start, head, "(");
    AtFirst(s, start + |head|, "(");
  }

  lemma BraceRead(s: string, paren: nat, brace: nat) returns (parameters: seq<Piece>, space: string)
    requires paren < |s| && s[paren] == '(' && BraceAfter(s, paren) == Some(brace)
    ensures GoodPieces(parameters, '(', ')') && forall k :: 0 <= k < |space| ==> IsSpace(space[k])
    ensures var text := RenderPiece(Group(parameters), '(', ')');
            At(s, paren, text) && At(s, paren + |text|, space) && brace == paren + |text| + |space|
  {
    var parenEnd := MatchEnd(s, paren, OUTSIDE, '(', ')').value;
    parameters := GroupRead(s, paren, '(', ')', parenEnd);
    space := SpaceRead(s, parenEnd + 1);
  }

  lemma FunctionJoin(s: string, start: nat, name: string, f: JsText)
    requires var head := "function " + name;
             && At(s, start, head) && At(s, start + |head|, ParameterText(f))
             && At(s, start + |head| + |ParameterText(f)|, f.space)
             && At(s, start + |head| + |ParameterText(f)| + |f.space|, BodyText(f))
    ensures At(s, start, RenderFunction(name, f))
  {
    var head := "function " + name;
    AtJoin(s, start, head, ParameterText(f));
    AtJoin(s, start, head + ParameterText(f), f.space);
    AtJoin(s, start, head + ParameterText(f) + f.space, BodyText(f));
  }

  // What is found is a function of the grammar.
  lemma FunctionRead(s: string, name: string) returns (f: JsText)
    requires Extent(s, name).Some?
    ensures var (start, end) := Extent(s, name).value;
            && GoodFunction(f) && At(s, start, RenderFunction(name, f)) && end + 1 == start + |RenderFunction(name, f)|
            && Find(s, Marker(name), 0) == Some(start)
  {
    var (start, brace) := BodyStart(s, name).value;
    var paren := start + |Marker(name)| - 1;
    HeadRead(s, start, name);
    var parameters, space := BraceRead(s, paren, brace);
    var body := GroupRead(s, brace, '{', '}', Extent(s, name).value.1);
    f := JsText(parameters, space, body);
    FunctionJoin(s, start, name, f);
  }

  // `source` is a function of the grammar between two texts, and its marker does not occur before it.
  ghost predicate Holds(source: string, name: string, pre: string, f: JsText, post: string) {
    && source == pre + RenderFunction(name, f) + post && GoodFunction(f)
    && forall i :: 0 <= i < |pre| ==> !OccursAt(source, "function " + name + "(", i)
  }

  // A text is rewritten exactly when there is a function of the grammar at the first occurrence of its marker, and then this
  // function and nothing else is replaced.
  lemma ReplacedIff(source: string, name: string, replacement: string)
    ensures ReplaceFunction(source, name, replacement).Some? <==> exists pre, f, post :: Holds(source, name, pre, f, post)
    ensures forall pre, f, post :: Holds(source, name, pre, f, post) ==>
              ReplaceFunction(source, name, replacement) == Some(pre + replacement + post)
  {
    forall pre, f, post | Holds(source, name, pre, f, post)
      ensures ReplaceFunction(source, name, replacement) == Some(pre + replacement + post)
    {
      ReplacesFunction(pre, name, f, post, replacement);
    }
    if ReplaceFunction(source, name, replacement).Some? {
      var pre, f, post := HoldsFunction(source, name);
    }
  }

  lemma HoldsFunction(source: string, name: string) returns (pre: string, f: JsText, post: string)
    requires Extent(source, name).Some?
    ensures Holds(source, name, pre, f, post)
  {
    f := FunctionRead(source, name);
    var (start, end) := Extent(source, name).value;
    pre, post := source[..start], source[end + 1..];
    AtSlice(source, start, RenderFunction(name, f));
    assert source == pre + RenderFunction(name, f) + post;
  }
}
