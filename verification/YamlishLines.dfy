/** Single printed lines, and what the yaml-like parser sees in them. */
module YamlishLines {
  import opened Text
  import opened Yamlish

  function Spaces(n: nat): string {
    if n == 0 then "" else " " + Spaces(n - 1)
  }

  // A key that a line can start with.
  predicate PlainKey(key: string) {
    key != "" && Strip(key) == key && key[0] != '#' && ':' !in key && !("- " <= key)
  }

  // Here the text ends, or a line no deeper than `depth` follows.
  ghost predicate Shallow(lines: seq<string>, at: nat, depth: nat) {
    at == |lines| || (at < |lines| && !Blank(lines[at]) && LineIndent(lines[at]) <= depth)
  }

  lemma {:induction false} IndentOfSpaces(n: nat, rest: string)
    requires rest != "" && rest[0] != ' '
    ensures LineIndent(Spaces(n) + rest) == n && Content(Spaces(n) + rest) == rest
    ensures |Spaces(n)| == n
  {
    var line := Spaces(n) + rest;
    if n == 0 {
    } else {
      assert line[1..] == Spaces(n - 1) + rest;
      IndentOfSpaces(n - 1, rest);
      assert line[n..] == line[1..][n - 1..];
    }
  }

  // White space in front changes the indentation, and nothing else.
  lemma {:induction false} Indented(n: nat, line: string)
    ensures |Spaces(n)| == n && LineIndent(Spaces(n) + line) == n + LineIndent(line)
    ensures StripLeft(Spaces(n) + line) == StripLeft(line)
    ensures Blank(Spaces(n) + line) <==> Blank(line)
  {
    SpaceFacts();
    if n == 0 {
      assert Spaces(0) + line == line;
    } else {
      assert (Spaces(n) + line)[1..] == Spaces(n - 1) + line;
      Indented(n - 1, line);
    }
  }

  lemma SpaceFacts()
    ensures IsSpace(' ') && !IsSpace(':')
  {
    assert SPACES[1..][0] == (0x1C, 0x20);
    assert InSomeRange(32, SPACES[1..]);
    OutsideRanges(58, SPACES);
  }

  lemma {:induction false} StripLeftOfSpaces(n: nat, rest: string)
    requires rest != "" && !IsSpace(rest[0])
    ensures StripLeft(Spaces(n) + rest) == rest
  {
    SpaceFacts();
    if n > 0 {
      assert (Spaces(n) + rest)[1..] == Spaces(n - 1) + rest;
      StripLeftOfSpaces(n - 1, rest);
    } else {
      assert Spaces(n) + rest == rest;
    }
  }

  // Cutting white space off the end keeps a character that is not white space.
  lemma {:induction false} StripRightKeepsFirst(s: string)
    requires s != "" && !IsSpace(s[0])
    ensures StripRight(s) != "" && StripRight(s)[0] == s[0]
  {
    if |s| == 1 || !IsSpace(s[|s| - 1]) {
    } else {
      StripRightKeepsFirst(s[..|s| - 1]);
    }
  }

  lemma PrintedLineShows(depth: nat, rest: string)
    requires rest != "" && !IsSpace(rest[0]) && rest[0] != '#'
    ensures !Blank(Spaces(depth) + rest)
    ensures LineIndent(Spaces(depth) + rest) == depth && Content(Spaces(depth) + rest) == rest
  {
    SpaceFacts();
    StripLeftOfSpaces(depth, rest);
    StripRightKeepsFirst(rest);
    IndentOfSpaces(depth, rest);
  }

  lemma {:induction false} PartitionAtColon(key: string, rest: string)
    requires ':' !in key
    ensures Partition(key + ":" + rest) == Parts(key, true, rest)
  {
    var s := key + ":" + rest;
    if key == "" {
      assert s == ":" + rest && s[1..] == rest;
    } else {
      assert s[0] == key[0] && s[1..] == key[1..] + ":" + rest;
      PartitionAtColon(key[1..], rest);
    }
  }

  lemma PlainKeyIsNoItem(key: string, rest: string)
    requires PlainKey(key)
    ensures !("- " <= key + ":" + rest)
  {
    var content := key + ":" + rest;
    if |key| >= 2 {
      assert content[..2] == key[..2];
    } else {
      assert content[1] == ':';
    }
  }

  // A line with a plain key is an entry at its depth, whatever follows the colon.
  lemma EntryLine(depth: nat, key: string, rest: string)
    requires PlainKey(key)
    ensures var line := Spaces(depth) + key + ":" + rest;
            && !Blank(line) && IsEntry(line, depth) && LineIndent(line) == depth
            && Partition(Content(line)) == Parts(key, true, rest)
  {
    var content := key + ":" + rest;
    var line := Spaces(depth) + key + ":" + rest;
    assert line == Spaces(depth) + content;
    assert content[0] == key[0] && !IsSpace(key[0]) by { StripIdempotent(key); }
    PrintedLineShows(depth, content);
    PartitionAtColon(key, rest);
    PlainKeyIsNoItem(key, rest);
  }

  // A line with a dash is an item at its depth.
  lemma ItemLineShows(depth: nat, rest: string)
    ensures var line := Spaces(depth) + ("- " + rest);
            && !Blank(line) && IsItemAt(line, depth) && LineIndent(line) == depth
            && Content(line)[2..] == rest
  {
    var content := "- " + rest;
    DashIsNoSpace();
    assert content[0] == '-' && content[2..] == rest && content[..2] == "- ";
    PrintedLineShows(depth, content);
  }

  lemma DashIsNoSpace()
    ensures !IsSpace('-')
  {
    OutsideRanges('-' as int, SPACES);
  }
}
