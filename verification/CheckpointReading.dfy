/** What a checkpoint makes of paths and texts: ".." in a path, and the line ends of a text that is read. */
module CheckpointReading {
  import opened Checkpoints
  import opened FileTree

  // ---------- Paths ----------

  lemma {:induction false} NormalizeOver(a: seq<string>, b: seq<string>, done: Path)
    ensures Normalize(a + b, done) == Normalize(b, Normalize(a, done))
    decreases |a|
  {
    if a == [] {
      assert a + b == b;
    } else {
      var next := if a[0] != ".." then done + [a[0]] else if done == [] then [] else done[..|done| - 1];
      assert (a + b)[1..] == a[1..] + b;
      NormalizeOver(a[1..], b, next);
    }
  }

  // A ".." takes away the name before it, and nothing at the top; names without ".." after them stay.
  lemma PathMeans(a: seq<string>, name: string, b: seq<string>)
    requires name != ".."
    ensures Normalize(a + [name, ".."] + b, []) == Normalize(a + b, [])
    ensures Normalize([".."] + b, []) == Normalize(b, [])
    ensures IsNormal(b) ==> Normalize(b, []) == b
  {
    NormalizeOver(a + [name, ".."], b, []);
    NormalizeOver(a, [name, ".."], []);
    NormalizeOver(a, b, []);
    var done := Normalize(a, []);
    assert [name, ".."][1..] == [".."] && [".."][1..] == [];
    assert (done + [name])[..|done|] == done;
    assert Normalize([name, ".."], done) == Normalize([".."], done + [name]) == Normalize([], done);
    assert ([".."] + b)[1..] == b;
    NormalizeKeepsNormal(b, []);
  }

  // ---------- Line ends ----------

  datatype Ending = Lf | Cr | CrLf

  datatype Line = Line(text: string, ending: Ending)

  function Mark(ending: Ending): string {
    match ending case Lf => "\n" case Cr => "\r" case CrLf => "\r\n"
  }

  // The text of these lines, and a last one that does not end.
  function AsWritten(lines: seq<Line>, last: string): string {
    if lines == [] then last else lines[0].text + (Mark(lines[0].ending) + AsWritten(lines[1..], last))
  }

  function WithLineFeeds(lines: seq<Line>, last: string): string {
    if lines == [] then last else lines[0].text + ("\n" + WithLineFeeds(lines[1..], last))
  }

  ghost predicate NoLineEnd(text: string) {
    forall k :: 0 <= k < |text| ==> text[k] != '\r' && text[k] != '\n'
  }

  // Lines without line ends inside, and none whose "\r" would make one line end with the "\n" after it.
  ghost predicate AreLines(lines: seq<Line>) {
    && (forall k :: 0 <= k < |lines| ==> NoLineEnd(lines[k].text))
    && forall k :: 0 <= k < |lines| - 1 ==> !(lines[k].ending == Cr && lines[k + 1] == Line("", Lf))
  }

  lemma {:induction false} PlainThenRest(text: string, rest: string)
    requires NoLineEnd(text)
    ensures Newlines(text + rest) == text + Newlines(rest)
  {
    if text == "" {
      assert text + rest == rest;
    } else {
      assert (text + rest)[1..] == text[1..] + rest;
      PlainThenRest(text[1..], rest);
      assert [text[0]] + text[1..] == text;
    }
  }

  lemma ReadsMark(ending: Ending, rest: string)
    requires ending == Cr ==> rest == "" || rest[0] != '\n'
    ensures Newlines(Mark(ending) + rest) == "\n" + Newlines(rest)
  {
    var s := Mark(ending) + rest;
    match ending {
      case Lf => assert s[0] == '\n' && s[1..] == rest;
      case Cr => assert s[0] == '\r' && s[1..] == rest;
      case CrLf => assert s[0] == '\r' && s[1] == '\n' && s[2..] == rest;
    }
  }

  lemma StartOfRest(lines: seq<Line>, last: string)
    requires AreLines(lines) && NoLineEnd(last)
    ensures var s := AsWritten(lines, last);
            s != "" && s[0] == '\n' ==> lines != [] && lines[0] == Line("", Lf)
  {
    if lines != [] && lines[0].text != "" {
      assert AsWritten(lines, last)[0] == lines[0].text[0];
    }
  }

  // Reading gives every line end, however it is written, as one line feed, and keeps everything else.
  lemma {:induction false} LineEndsRead(lines: seq<Line>, last: string)
    requires AreLines(lines) && NoLineEnd(last)
    ensures Newlines(AsWritten(lines, last)) == WithLineFeeds(lines, last)
  {
    if lines == [] {
      PlainThenRest(last, "");
      assert last + "" == last;
    } else {
      var rest := lines[1..];
      assert forall k :: 0 <= k < |rest| ==> rest[k] == lines[k + 1];
      LineEndsRead(rest, last);
      StartOfRest(rest, last);
      PlainThenRest(lines[0].text, Mark(lines[0].ending) + AsWritten(rest, last));
      ReadsMark(lines[0].ending, AsWritten(rest, last));
    }
  }
}
