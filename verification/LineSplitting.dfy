/** What splitting a text into lines gives. */
module LineSplitting {
  import opened LineSplice

  // The characters that end a line.
  ghost predicate EndsLine(c: char) {
    c in {'\n', '\r', '\U{0B}', '\U{0C}', '\U{1C}', '\U{1D}', '\U{1E}', '\U{85}', '\U{2028}', '\U{2029}'}
  }

  // Nothing in the line but its last character ends a line, or its last two are a carriage return and a line feed.
  ghost predicate OneLine(line: string) {
    line != "" &&
    forall i :: 0 <= i < |line| - 1 && EndsLine(line[i]) ==> i == |line| - 2 && line[i] == '\r' && line[i + 1] == '\n'
  }

  // After this line another one begins.
  ghost predicate Ended(line: string, next: string) {
    line != "" && EndsLine(line[|line| - 1]) && !(line[|line| - 1] == '\r' && next != "" && next[0] == '\n')
  }

  ghost predicate AreLines(lines: seq<string>) {
    && (forall k :: 0 <= k < |lines| ==> OneLine(lines[k]))
    && forall k :: 0 <= k < |lines| - 1 ==> Ended(lines[k], lines[k + 1])
  }

  lemma BreaksEndLines(c: char)
    ensures IsBreak(c) <==> EndsLine(c)
  {
  }

  // A text is split into lines: each but the last ends where the next one begins, and nowhere else.
  lemma {:induction false} SplitMeans(text: string)
    ensures AreLines(SplitLines(text)) && StartsAs(SplitLines(text), text)
    decreases |text|
  {
    if text == "" {
    } else if |text| >= 2 && text[0] == '\r' && text[1] == '\n' {
      SplitMeans(text[2..]);
      LinesCons(text[..2], SplitLines(text[2..]));
    } else {
      SplitMeans(text[1..]);
      OneMore(text, SplitLines(text[1..]));
    }
  }

  // The first line starts as the text does.
  ghost predicate StartsAs(lines: seq<string>, text: string) {
    text != "" ==> lines != [] && lines[0] != "" && lines[0][0] == text[0]
  }

  lemma OneMore(text: string, rest: seq<string>)
    requires text != "" && !(|text| >= 2 && text[0] == '\r' && text[1] == '\n')
    requires rest == SplitLines(text[1..]) && AreLines(rest) && StartsAs(rest, text[1..])
    ensures AreLines(SplitLines(text)) && StartsAs(SplitLines(text), text)
  {
    BreaksEndLines(text[0]);
    if IsBreak(text[0]) || rest == [] {
      LinesCons(text[..1], rest);
    } else {
      LongerLine(text[0], rest);
      assert text[..1] == [text[0]];
    }
  }

  lemma LinesCons(line: string, rest: seq<string>)
    requires OneLine(line) && AreLines(rest) && (rest != [] ==> Ended(line, rest[0]))
    ensures AreLines([line] + rest)
  {
    var lines := [line] + rest;
    forall k | 0 <= k < |lines| - 1 ensures Ended(lines[k], lines[k + 1]) {
      assert k > 0 ==> Ended(rest[k - 1], rest[k]);
    }
  }

  lemma LongerLine(c: char, rest: seq<string>)
    requires rest != [] && AreLines(rest) && !EndsLine(c)
    ensures AreLines([[c] + rest[0]] + rest[1..])
  {
    var first, lines := [c] + rest[0], [[c] + rest[0]] + rest[1..];
    forall i | 0 <= i < |first| - 1 && EndsLine(first[i]) ensures i == |first| - 2 && first[i] == '\r' && first[i + 1] == '\n' {
      assert first[i] == rest[0][i - 1];
    }
    forall k | 0 <= k < |lines| - 1 ensures Ended(lines[k], lines[k + 1]) {
      assert Ended(rest[k], rest[k + 1]);
    }
  }
}
