/** Texts over several lines: how they are printed as block scalars, and that the yaml-like parser reads them back. */
module YamlishText {
  import opened Sequences
  import opened Text
  import opened Wrappers
  import opened Yamlish
  import opened YamlishLines

  // A text, cut at its line feeds.
  function Lines(text: string): (r: seq<string>)
    ensures r != []
  {
    if text == "" then [""]
    else
      var rest := Lines(text[1..]);
      if text[0] == '\n' then [""] + rest else [[text[0]] + rest[0]] + rest[1..]
  }

  function TextLine(line: string, depth: nat): string {
    if line == "" then "" else Spaces(depth) + line
  }

  function PrintText(text: string, depth: nat): seq<string> {
    seq(|Lines(text)|, i requires 0 <= i < |Lines(text)| => TextLine(Lines(text)[i], depth))
  }

  // The text up to its last character that is not a line feed.
  function Trimmed(text: string): string {
    if forall k :: 0 <= k < |text| ==> text[k] == '\n' then "" else [text[0]] + Trimmed(text[1..])
  }

  // The lines without white space around them, those that are not empty then, with one space between two of them.
  function Folded(lines: seq<string>): string {
    if lines == [] then ""
    else
      var first, rest := Strip(lines[0]), Folded(lines[1..]);
      if first == "" then rest else if rest == "" then first else first + " " + rest
  }

  function TextValue(text: string, folded: bool): string {
    if folded then Folded(Lines(text)) else Trimmed(text)
  }

  // The first line with content starts at the margin, so that the indentation can be told from the text.
  ghost predicate PrintableText(text: string) {
    exists k :: 0 <= k < |Lines(text)| && StartsText(Lines(text), k)
  }

  ghost predicate StartsText(lines: seq<string>, k: nat)
    requires k < |lines|
  {
    && !Blank(lines[k]) && LineIndent(lines[k]) == 0
    && forall j :: 0 <= j < k ==> Blank(lines[j])
  }

  // ---------- What the parser makes of the lines ----------

  lemma {:induction false} JoinGrows(c: char, parts: seq<string>)
    requires parts != []
    ensures Join("\n", [[c] + parts[0]] + parts[1..]) == [c] + Join("\n", parts)
  {
    var longer := [[c] + parts[0]] + parts[1..];
    assert longer[1..] == parts[1..];
  }

  // Joining the lines undoes cutting the text.
  lemma {:induction false} JoinLines(text: string)
    ensures Join("\n", Lines(text)) == text
  {
    if text == "" {
    } else {
      var rest := Lines(text[1..]);
      JoinLines(text[1..]);
      assert text == [text[0]] + text[1..];
      if text[0] == '\n' {
        assert ([""] + rest)[1..] == rest;
        assert "\n" == ['\n'];
      } else {
        JoinGrows(text[0], rest);
      }
    }
  }

  lemma {:induction false} TrimmedMeans(text: string)
    ensures StripNewlines(text) == Trimmed(text)
  {
    if text == "" {
    } else if text[|text| - 1] == '\n' {
      TrimmedMeans(text[..|text| - 1]);
      TrimmedCut(text);
    } else {
      TrimmedWhole(text);
    }
  }

  lemma {:induction false} TrimmedCut(text: string)
    requires text != "" && text[|text| - 1] == '\n'
    ensures Trimmed(text) == Trimmed(text[..|text| - 1])
  {
    var front := text[..|text| - 1];
    if forall k :: 0 <= k < |front| ==> front[k] == '\n' {
    } else {
      var k :| 0 <= k < |front| && front[k] != '\n';
      assert text[k] != '\n';
      assert text[1..][..|text| - 2] == front[1..];
      TrimmedCut(text[1..]);
    }
  }

  lemma {:induction false} TrimmedWhole(text: string)
    requires text != "" ==> text[|text| - 1] != '\n'
    ensures Trimmed(text) == text
  {
    if text == "" {
    } else {
      assert text[|text| - 1] != '\n';
      TrimmedWhole(text[1..]);
    }
  }

  lemma {:induction false} FoldedMeans(lines: seq<string>)
    ensures Join(" ", Words(lines)) == Folded(lines)
    ensures Folded(lines) == "" <==> Words(lines) == []
  {
    if lines == [] {
    } else {
      FoldedMeans(lines[1..]);
      var first, rest := Strip(lines[0]), Words(lines[1..]);
      if first == "" {
        assert Words(lines) == [] + rest == rest;
      } else {
        assert Words(lines) == [first] + rest && ([first] + rest)[1..] == rest;
      }
    }
  }

  // ---------- Reading a printed text ----------

  lemma TextLineShows(line: string, depth: nat)
    ensures Blank(TextLine(line, depth)) <==> Blank(line)
    ensures line != "" ==> LineIndent(TextLine(line, depth)) == depth + LineIndent(line)
    ensures depth > 0 ==> Dedent(TextLine(line, depth), depth) == line
  {
    Indented(depth, line);
  }

  lemma {:induction false} SkipsBlank(lines: seq<string>, index: nat, k: nat)
    requires index <= k < |lines| && !Blank(lines[k]) && forall j :: index <= j < k ==> Blank(lines[j])
    ensures SkipBlank(lines, index) == k
    decreases k - index
  {
    if index == k {
    } else {
      SkipsBlank(lines, index + 1, k);
    }
  }

  lemma TextAt(lines: seq<string>, index: nat, text: string, depth: nat, j: nat)
    requires At(lines, index, PrintText(text, depth)) && j < |Lines(text)|
    ensures index + j < |lines| && lines[index + j] == TextLine(Lines(text)[j], depth)
  {
    assert lines[index + j] == PrintText(text, depth)[j];
  }

  lemma TextShows(lines: seq<string>, index: nat, text: string, depth: nat, j: nat)
    requires At(lines, index, PrintText(text, depth)) && j < |Lines(text)|
    ensures index + j < |lines| && (Blank(lines[index + j]) <==> Blank(Lines(text)[j]))
    ensures !Blank(Lines(text)[j]) ==> LineIndent(lines[index + j]) == depth + LineIndent(Lines(text)[j])
  {
    TextAt(lines, index, text, depth, j);
    TextLineShows(Lines(text)[j], depth);
  }

  lemma FindsIndent(lines: seq<string>, index: nat, text: string, depth: nat)
    requires At(lines, index, PrintText(text, depth + 2)) && PrintableText(text)
    ensures NextIndent(lines, index, depth) == Some(depth + 2)
  {
    var k :| 0 <= k < |Lines(text)| && StartsText(Lines(text), k);
    FindsStart(lines, index, text, depth + 2, k);
    NextIndentIs(lines, index, depth, index + k, depth + 2);
  }

  lemma NextIndentIs(lines: seq<string>, index: nat, parent: nat, first: nat, indent: nat)
    requires index <= |lines| && SkipBlank(lines, index) == first < |lines| && LineIndent(lines[first]) == indent > parent
    ensures NextIndent(lines, index, parent) == Some(indent)
  {
  }

  lemma BlockIs(lines: seq<string>, index: nat, parent: nat, folded: bool, indent: nat, end: nat, block: seq<string>)
    requires index <= end <= |lines| && NextIndent(lines, index, parent) == Some(indent) && BlockEnd(lines, index, parent) == end
    requires Dedented(lines, index, end, indent) == block
    ensures BlockScalar(lines, index, parent, folded) == (BlockText(block, folded), end)
  {
  }

  lemma FindsStart(lines: seq<string>, index: nat, text: string, depth: nat, k: nat)
    requires At(lines, index, PrintText(text, depth)) && k < |Lines(text)| && StartsText(Lines(text), k)
    ensures SkipBlank(lines, index) == index + k < |lines| && LineIndent(lines[index + k]) == depth
  {
    TextShows(lines, index, text, depth, k);
    forall j | index <= j < index + k ensures Blank(lines[j]) {
      TextShows(lines, index, text, depth, j - index);
      assert Blank(Lines(text)[j - index]);
    }
    SkipsBlank(lines, index, index + k);
  }

  lemma TextGoesOn(lines: seq<string>, index: nat, text: string, depth: nat, j: nat)
    requires At(lines, index, PrintText(text, depth + 2)) && j < |Lines(text)|
    ensures index + j < |lines| && !EndsBlock(lines[index + j], depth)
  {
    TextAt(lines, index, text, depth + 2, j);
    TextLineShows(Lines(text)[j], depth + 2);
  }

  lemma FindsEnd(lines: seq<string>, index: nat, text: string, depth: nat)
    requires At(lines, index, PrintText(text, depth + 2)) && Shallow(lines, index + |Lines(text)|, depth)
    ensures BlockEnd(lines, index, depth) == index + |Lines(text)|
  {
    var end := index + |Lines(text)|;
    forall j | index <= j < end ensures !EndsBlock(lines[j], depth) {
      TextGoesOn(lines, index, text, depth, j - index);
    }
    assert end < |lines| ==> EndsBlock(lines[end], depth);
  }

  lemma TextMeans(text: string, folded: bool)
    ensures BlockText(Lines(text), folded) == TextValue(text, folded)
  {
    JoinLines(text);
    TrimmedMeans(text);
    FoldedMeans(Lines(text));
  }

  lemma TextDedents(lines: seq<string>, index: nat, text: string, depth: nat)
    requires At(lines, index, PrintText(text, depth)) && depth > 0
    ensures index + |Lines(text)| <= |lines| && Dedented(lines, index, index + |Lines(text)|, depth) == Lines(text)
  {
    forall j | 0 <= j < |Lines(text)| ensures index + j < |lines| && Dedent(lines[index + j], depth) == Lines(text)[j] {
      TextAt(lines, index, text, depth, j);
      TextLineShows(Lines(text)[j], depth);
    }
  }

  // Where a printed text starts and ends for the parser, and what it takes from it.
  lemma TextStands(lines: seq<string>, index: nat, text: string, depth: nat, end: nat)
    requires At(lines, index, PrintText(text, depth + 2)) && PrintableText(text)
    requires end == index + |PrintText(text, depth + 2)| && Shallow(lines, end, depth)
    ensures end <= |lines| && NextIndent(lines, index, depth) == Some(depth + 2) && BlockEnd(lines, index, depth) == end
    ensures Dedented(lines, index, end, depth + 2) == Lines(text)
  {
    assert end == index + |Lines(text)|;
    assert NextIndent(lines, index, depth) == Some(depth + 2) by {
      FindsIndent(lines, index, text, depth);
    }
    assert BlockEnd(lines, index, depth) == end by {
      FindsEnd(lines, index, text, depth);
    }
    TextDedents(lines, index, text, depth + 2);
  }

  // A text printed below a line at `depth` is read back: without its last line feeds, or with its lines folded.
  lemma ReadsText(lines: seq<string>, index: nat, text: string, depth: nat, folded: bool, end: nat)
    requires At(lines, index, PrintText(text, depth + 2)) && PrintableText(text)
    requires end == index + |PrintText(text, depth + 2)| && Shallow(lines, end, depth)
    ensures BlockScalar(lines, index, depth, folded) == (TextValue(text, folded), end)
  {
    TextStands(lines, index, text, depth, end);
    TextMeans(text, folded);
    BlockIs(lines, index, depth, folded, depth + 2, end, Lines(text));
  }
}
