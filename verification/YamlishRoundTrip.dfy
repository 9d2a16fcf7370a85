/**
 A printer for nested mappings and lists, and the theorem that the yaml-like parser reads back what it prints.
 The repository has no such printer: it is the reference that says what the parsed text means.
 */
module YamlishRoundTrip {
  import opened Sequences
  import opened Text
  import opened Wrappers
  import opened Yamlish
  import opened YamlishLines
  import opened YamlishText
  import opened YamlishTheorems

  // A text in one line, a text over several lines, a mapping, or a list. As the item of a list a mapping can also be printed with
  // its first field in the line of the dash.
  datatype Tree =
    | Leaf(text: string)
    | Block(text: string, folded: bool)
    | Branch(fields: seq<Field>)
    | Items(items: seq<Tree>)
    | Inline(first: Field, others: seq<Field>)

  datatype Field = Field(key: string, tree: Tree)

  // ---------- Printing ----------

  // What follows the colon of a key.
  function AfterColon(tree: Tree): string {
    match tree
    case Leaf(text) => " " + text
    case Block(_, folded) => if folded then " >" else " |"
    case _ => ""
  }

  // What follows the dash of an item.
  function AfterDash(tree: Tree): string {
    match tree
    case Leaf(text) => text
    case Inline(first, _) => first.key + ":" + AfterColon(first.tree)
    case _ => ""
  }

  function FirstLine(field: Field, depth: nat): string {
    Spaces(depth) + field.key + ":" + AfterColon(field.tree)
  }

  function ItemLine(tree: Tree, depth: nat): string {
    Spaces(depth) + ("- " + AfterDash(tree))
  }

  // The lines below the first one.
  function Below(tree: Tree, depth: nat): seq<string>
    decreases tree
  {
    match tree
    case Leaf(_) => []
    case Block(text, _) => PrintText(text, depth)
    case Branch(fields) => Print(fields, depth)
    case Items(items) => PrintItems(items, depth)
    case Inline(first, others) => Below(first.tree, depth + 2) + Print(others, depth)
  }

  function Print(fields: seq<Field>, depth: nat): seq<string>
    decreases fields
  {
    if fields == [] then []
    else [FirstLine(fields[0], depth)] + Below(fields[0].tree, depth + 2) + Print(fields[1..], depth)
  }

  function PrintItems(items: seq<Tree>, depth: nat): seq<string>
    decreases items
  {
    if items == [] then [] else [ItemLine(items[0], depth)] + Below(items[0], depth + 2) + PrintItems(items[1..], depth)
  }

  // ---------- What is meant ----------

  function TreeValue(tree: Tree): Value
    decreases tree
  {
    match tree
    case Leaf(text) => Scalar(text)
    case Block(text, folded) => Str(TextValue(text, folded))
    case Branch(fields) => Map(Meaning(fields))
    case Items(items) => List(Values(items))
    case Inline(first, others) => Map([(first.key, TreeValue(first.tree))] + Meaning(others))
  }

  function Meaning(fields: seq<Field>): Entries
    decreases fields
  {
    if fields == [] then [] else [(fields[0].key, TreeValue(fields[0].tree))] + Meaning(fields[1..])
  }

  function Values(items: seq<Tree>): seq<Value>
    decreases items
  {
    if items == [] then [] else [TreeValue(items[0])] + Values(items[1..])
  }

  // ---------- What can be printed ----------

  // A text that is read as a scalar, not as a block or as a nested node.
  predicate PlainText(text: string) {
    text != "" && Strip(text) == text && text != "|" && text != ">"
  }

  // The index of the first colon, or the length of a text without one.
  function ColonAt(text: string): (i: nat)
    ensures i <= |text| && (i < |text| ==> text[i] == ':') && ':' !in text[..i]
  {
    if text == "" || text[0] == ':' then 0 else 1 + ColonAt(text[1..])
  }

  // A text that is read as a scalar after a dash: it is quoted, or it has no colon, or the first one comes first or stands before a
  // character that is not white space.
  predicate PlainItem(text: string) {
    && text != "" && Strip(text) == text
    && var i := ColonAt(text);
       || text[0] == '\'' || text[0] == '"'
       || i == |text| || i == 0 || (i + 1 < |text| && !IsSpace(text[i + 1]))
  }

  // A nested node shows only by its lines: a list is not empty, and neither is anything nested in one.
  ghost predicate PrintableBelow(tree: Tree, inList: bool)
    decreases tree
  {
    match tree
    case Leaf(text) => if inList then PlainItem(text) else PlainText(text)
    case Block(text, _) => !inList && PrintableText(text)
    case Branch(fields) => (inList ==> fields != []) && Printable(fields)
    case Items(items) => items != [] && PrintableItems(items)
    case Inline(first, others) => inList && PrintableFirst(first, others) && Printable(others)
  }

  // A field that can stand after a dash: its key has no quote in front, it holds no text over several lines, and a nested node in
  // it shows by its lines unless the field is alone.
  ghost predicate PrintableFirst(first: Field, others: seq<Field>)
    decreases first, 0
  {
    && PlainKey(first.key) && first.key[0] != '\'' && first.key[0] != '"'
    && (forall k :: 0 <= k < |others| ==> others[k].key != first.key)
    && match first.tree
       case Leaf(text) => text != "" && Strip(text) == text
       case Block(_, _) => false
       case Branch(fields) => (fields == [] ==> others == []) && Printable(fields)
       case Items(items) => items != [] && PrintableItems(items)
       case Inline(_, _) => false
  }

  ghost predicate Printable(fields: seq<Field>)
    decreases fields
  {
    fields == [] ||
    (&& PlainKey(fields[0].key) && PrintableBelow(fields[0].tree, false) && Printable(fields[1..])
     && forall k :: 1 <= k < |fields| ==> fields[k].key != fields[0].key)
  }

  ghost predicate PrintableItems(items: seq<Tree>)
    decreases items
  {
    items == [] || (PrintableBelow(items[0], true) && PrintableItems(items[1..]))
  }

  lemma ScalarAfterColon(text: string)
    requires text != "" && Strip(text) == text
    ensures Strip(" " + text) == text
  {
    SpaceFacts();
    assert (" " + text)[1..] == text;
  }

  // ---------- One printed field ----------

  // The map loop reads an entry whose value has been read.
  lemma EntryStep(
    lines: seq<string>, index: nat, depth: nat, key: string, rest: string, value: Value, next: nat, entries: Entries)
    requires index < |lines| && lines[index] == Spaces(depth) + key + ":" + rest && PlainKey(key)
    requires EntryValue(lines, index + 1, depth, Strip(rest)) == (value, next)
    ensures MapFrom(lines, index, depth, entries) == MapFrom(lines, next, depth, Set(entries, key, value))
  {
    EntryLine(depth, key, rest);
    MapFromLine(lines, index, depth, entries);
  }

  // The list loop reads an item whose value has been read.
  lemma ItemStep(lines: seq<string>, index: nat, depth: nat, rest: string, value: Value, next: nat, items: seq<Value>)
    requires index < |lines| && lines[index] == Spaces(depth) + ("- " + rest)
    requires ItemValue(lines, index + 1, depth, Strip(rest)) == (value, next)
    ensures ListFrom(lines, index, depth, items) == ListFrom(lines, next, depth, items + [value])
  {
    ItemLineShows(depth, rest);
    ListFromLine(lines, index, depth, items);
  }

  lemma MarkShows(folded: bool)
    ensures Strip(if folded then " >" else " |") == if folded then ">" else "|"
  {
    var mark := if folded then ">" else "|";
    OutsideRanges(mark[0] as int, SPACES);
    assert StripLeft(mark) == mark && StripRight(mark) == mark;
    ScalarAfterColon(mark);
    assert " " + mark == if folded then " >" else " |";
  }

  lemma BlockField(lines: seq<string>, index: nat, depth: nat, folded: bool, text: string, next: nat)
    requires index <= |lines| && BlockScalar(lines, index, depth, folded) == (text, next)
    ensures EntryValue(lines, index, depth, Strip(if folded then " >" else " |")) == (Str(text), next)
  {
    MarkShows(folded);
    assert ">"[0] != "|"[0];
  }

  // A nested node that starts right at its first line.
  lemma ChildReads(lines: seq<string>, index: nat, depth: nat, inner: nat, missing: Value, value: Value, next: nat)
    requires index < |lines| && !Blank(lines[index]) && LineIndent(lines[index]) == inner > depth
    requires Node(lines, index, inner) == (value, next)
    ensures Child(lines, index, depth, missing) == (value, next)
  {
    assert SkipBlank(lines, index) == index;
  }

  // No nested node: nothing deeper follows.
  lemma NoChild(lines: seq<string>, index: nat, depth: nat, missing: Value)
    requires index <= |lines| && Shallow(lines, index, depth)
    ensures Child(lines, index, depth, missing) == (missing, index)
  {
    assert SkipBlank(lines, index) == index;
  }

  // How the lines of a nested node start.
  lemma BelowStarts(tree: Tree, depth: nat, inList: bool)
    requires (tree.Branch? || tree.Items?) && PrintableBelow(tree, inList)
    ensures Below(tree, depth) == [] <==> tree == Branch([])
    ensures Below(tree, depth) != [] ==>
              var line := Below(tree, depth)[0]; !Blank(line) && LineIndent(line) == depth && IsItem(line) == tree.Items?
  {
    match tree {
      case Branch(fields) =>
        if fields != [] {
          FirstPrintedLine(fields, depth);
        }
      case Items(items) =>
        ItemLineShows(depth, AfterDash(items[0]));
    }
  }

  lemma FirstPrintedLine(fields: seq<Field>, depth: nat)
    requires Printable(fields) && fields != []
    ensures Print(fields, depth) != [] && Print(fields, depth)[0] == FirstLine(fields[0], depth)
    ensures !Blank(FirstLine(fields[0], depth)) && LineIndent(FirstLine(fields[0], depth)) == depth
    ensures !IsItem(FirstLine(fields[0], depth))
  {
    EntryLine(depth, fields[0].key, AfterColon(fields[0].tree));
  }

  // Here the text ends, or a line less deep than `depth` follows.
  ghost predicate Ends(lines: seq<string>, at: nat, depth: nat) {
    Shallow(lines, at, depth) && (at < |lines| ==> LineIndent(lines[at]) < depth)
  }

  // A nested node is read from its lines, wherever they stand.
  lemma {:induction false} ReadsNode(lines: seq<string>, index: nat, tree: Tree, depth: nat, inList: bool, next: nat)
    requires (tree.Branch? || tree.Items?) && PrintableBelow(tree, inList) && Below(tree, depth) != []
    requires At(lines, index, Below(tree, depth)) && next == index + |Below(tree, depth)| && Ends(lines, next, depth)
    ensures Node(lines, index, depth) == (TreeValue(tree), next)
    decreases tree, 0
  {
    BelowStarts(tree, depth, inList);
    AtFirst(lines, index, Below(tree, depth));
    assert SkipBlank(lines, index) == index;
    match tree {
      case Branch(fields) =>
        ReadsPrinted(lines, index, fields, depth, [], next);
        assert [] + Meaning(fields) == Meaning(fields);
      case Items(items) =>
        ReadsItems(lines, index, items, depth, [], next);
        assert [] + Values(items) == Values(items);
    }
  }

  // What is nested below a line at `depth`, at the deeper `inner`.
  lemma {:induction false} ReadsBelow(
    lines: seq<string>, index: nat, tree: Tree, depth: nat, inner: nat, inList: bool, missing: Value, next: nat)
    requires (tree.Branch? || tree.Items?) && PrintableBelow(tree, inList) && (tree == Branch([]) ==> missing == Map([]))
    requires inner > depth && At(lines, index, Below(tree, inner)) && next == index + |Below(tree, inner)|
    requires Ends(lines, next, inner) && (tree == Branch([]) ==> Shallow(lines, next, depth))
    ensures Child(lines, index, depth, missing) == (TreeValue(tree), next)
    decreases tree, 1
  {
    var block := Below(tree, inner);
    BelowStarts(tree, inner, inList);
    if block == [] {
      NoChild(lines, index, depth, missing);
    } else {
      AtFirst(lines, index, block);
      ReadsNode(lines, index, tree, inner, inList, next);
      ChildReads(lines, index, depth, inner, missing, TreeValue(tree), next);
    }
  }

  lemma LeafField(lines: seq<string>, index: nat, depth: nat, text: string)
    requires index <= |lines| && PlainText(text)
    ensures EntryValue(lines, index, depth, Strip(" " + text)) == (Scalar(text), index)
  {
    ScalarAfterColon(text);
  }

  lemma NestedField(lines: seq<string>, index: nat, depth: nat, value: Value, next: nat)
    requires index <= |lines| && Child(lines, index, depth, Map([])) == (value, next)
    ensures EntryValue(lines, index, depth, Strip("")) == (value, next)
  {
    assert Strip("") == "";
  }

  lemma NestedItem(lines: seq<string>, index: nat, depth: nat, value: Value, next: nat)
    requires index <= |lines| && Child(lines, index, depth, Str("")) == (value, next)
    ensures ItemValue(lines, index, depth, Strip("")) == (value, next)
  {
    assert Strip("") == "";
  }

  lemma LeafItem(lines: seq<string>, index: nat, depth: nat, text: string)
    requires index <= |lines| && PlainItem(text)
    ensures ItemValue(lines, index, depth, Strip(text)) == (Scalar(text), index)
  {
    PlainItemIsNoPair(text);
  }

  // The value of a field, after the line with its key.
  lemma {:induction false} ReadsFieldValue(lines: seq<string>, index: nat, tree: Tree, depth: nat, next: nat)
    requires At(lines, index, Below(tree, depth + 2)) && next == index + |Below(tree, depth + 2)| && Shallow(lines, next, depth)
    requires PrintableBelow(tree, false)
    ensures EntryValue(lines, index, depth, Strip(AfterColon(tree))) == (TreeValue(tree), next)
    decreases tree, 2
  {
    if tree.Leaf? {
      LeafField(lines, index, depth, tree.text);
    } else if tree.Block? {
      ReadsText(lines, index, tree.text, depth, tree.folded, next);
      BlockField(lines, index, depth, tree.folded, TextValue(tree.text, tree.folded), next);
    } else {
      ReadsBelow(lines, index, tree, depth, depth + 2, false, Map([]), next);
      NestedField(lines, index, depth, TreeValue(tree), next);
    }
  }

  // The value of an item, after the line with its dash.
  lemma {:induction false} ReadsItemValue(lines: seq<string>, index: nat, tree: Tree, depth: nat, next: nat)
    requires At(lines, index, Below(tree, depth + 2)) && next == index + |Below(tree, depth + 2)| && Shallow(lines, next, depth)
    requires PrintableBelow(tree, true)
    ensures ItemValue(lines, index, depth, Strip(AfterDash(tree))) == (TreeValue(tree), next)
    decreases tree, 2
  {
    if tree.Leaf? {
      LeafItem(lines, index, depth, tree.text);
    } else if tree.Inline? {
      InlineParts(lines, index, tree.first, tree.others, depth);
      ReadsInline(lines, index, tree.first, tree.others, depth, index + |Below(tree.first.tree, depth + 4)|, next);
    } else {
      ReadsBelow(lines, index, tree, depth, depth + 2, true, Str(""), next);
      NestedItem(lines, index, depth, TreeValue(tree), next);
    }
  }

  // ---------- Items with a key ----------

  lemma {:induction false} NoColonNoParts(text: string)
    requires ':' !in text
    ensures !Partition(text).found
  {
    if text == "" {
    } else {
      NoColonNoParts(text[1..]);
    }
  }

  lemma PlainItemIsNoPair(text: string)
    requires PlainItem(text)
    ensures !IsPairItem(text)
  {
    var i := ColonAt(text);
    QuoteShows(text);
    if i < |text| {
      assert text == text[..i] + ":" + text[i + 1..];
      PartitionAtColon(text[..i], text[i + 1..]);
      assert Strip("") == "";
    } else {
      assert text[..i] == text;
      NoColonNoParts(text);
    }
  }

  lemma QuoteShows(text: string)
    requires text != ""
    ensures "'" <= text <==> text[0] == '\''
    ensures "\"" <= text <==> text[0] == '"'
  {
  }

  // The text after the dash of such an item: nothing to strip, and a key with what follows its colon.
  lemma PairShows(key: string, tree: Tree)
    requires PlainKey(key) && key[0] != '\'' && key[0] != '"'
    requires if tree.Leaf? then tree.text != "" && Strip(tree.text) == tree.text else tree.Branch? || tree.Items?
    ensures var text := key + ":" + AfterColon(tree);
            && Strip(text) == text != "" && IsPairItem(text) && Partition(text) == Parts(key, true, AfterColon(tree))
    ensures Strip(AfterColon(tree)) == if tree.Leaf? then tree.text else ""
  {
    var text := key + ":" + AfterColon(tree);
    PartitionAtColon(key, AfterColon(tree));
    SpaceFacts();
    StripIdempotent(key);
    assert text[0] == key[0];
    QuoteShows(text);
    if tree.Leaf? {
      StripIdempotent(tree.text);
      ScalarAfterColon(tree.text);
      assert text[|text| - 1] == tree.text[|tree.text| - 1];
    } else {
      assert text[|text| - 1] == ':';
      assert Strip("") == "";
    }
  }

  // What the item of a list with a key is, if a mapping follows.
  lemma PairItemIs(
    lines: seq<string>, index: nat, depth: nat, key: string, after: string, value: Value, next: nat, others: Entries, end: nat)
    requires index <= |lines| && IsPairItem(key + ":" + after) && Partition(key + ":" + after) == Parts(key, true, after)
    requires Strip(key) == key
    requires if Strip(after) != "" then (value, next) == (Scalar(Strip(after)), index)
             else Child(lines, index, depth, Map([])) == (value, next)
    requires next <= |lines| && Child(lines, next, depth, Map([])) == (Map(others), end)
    ensures ItemValue(lines, index, depth, key + ":" + after) == (Map(Update([(key, value)], others)), end)
  {
    assert Set([], key, value) == [(key, value)];
  }

  lemma {:induction false} UpdateNewKeys(entries: Entries, fields: seq<Field>)
    requires NewKeys(entries, fields) && Printable(fields)
    ensures Update(entries, Meaning(fields)) == entries + Meaning(fields)
    decreases |fields|
  {
    if fields == [] {
    } else {
      var value := TreeValue(fields[0].tree);
      NewKeysGrow(entries, fields, value);
      UpdateNewKeys(entries + [(fields[0].key, value)], fields[1..]);
      MeaningStep(entries, fields);
      assert Meaning(fields)[1..] == Meaning(fields[1..]);
    }
  }

  lemma MapBelow(lines: seq<string>, index: nat, depth: nat, inner: nat, missing: Value, entries: Entries, end: nat)
    requires index < |lines| && !Blank(lines[index]) && LineIndent(lines[index]) == inner > depth && !IsItem(lines[index])
    requires MapFrom(lines, index, inner, []) == (entries, end)
    ensures Child(lines, index, depth, missing) == (Map(entries), end)
  {
    assert SkipBlank(lines, index) == index;
  }

  lemma FirstFieldStands(lines: seq<string>, index: nat, fields: seq<Field>, depth: nat)
    requires Printable(fields) && fields != [] && At(lines, index, Print(fields, depth))
    ensures index < |lines| && !Blank(lines[index]) && LineIndent(lines[index]) == depth && !IsItem(lines[index])
  {
    FirstPrintedLine(fields, depth);
    AtFirst(lines, index, Print(fields, depth));
  }

  // The fields after the first one, printed below the dash.
  lemma {:induction false} ReadsOthers(lines: seq<string>, index: nat, others: seq<Field>, depth: nat, end: nat)
    requires Printable(others) && At(lines, index, Print(others, depth + 2))
    requires end == index + |Print(others, depth + 2)| && Shallow(lines, end, depth)
    ensures Child(lines, index, depth, Map([])) == (Map(Meaning(others)), end)
    decreases others, 2
  {
    if others == [] {
      NoChild(lines, index, depth, Map([]));
    } else {
      assert MapFrom(lines, index, depth + 2, []) == (Meaning(others), end) by {
        ReadsPrinted(lines, index, others, depth + 2, [], end);
        assert [] + Meaning(others) == Meaning(others);
      }
      FirstFieldStands(lines, index, others, depth + 2);
      MapBelow(lines, index, depth, depth + 2, Map([]), Meaning(others), end);
    }
  }

  // After a nested first field the other fields follow, or the mapping ends.
  lemma OthersFollow(lines: seq<string>, next: nat, others: seq<Field>, depth: nat, end: nat)
    requires Printable(others) && At(lines, next, Print(others, depth + 2))
    requires end == next + |Print(others, depth + 2)| && Shallow(lines, end, depth)
    ensures Ends(lines, next, depth + 4) && (others == [] ==> Shallow(lines, next, depth))
  {
    if others != [] {
      FirstFieldStands(lines, next, others, depth + 2);
    }
  }

  lemma FirstIsNested(first: Field, others: seq<Field>)
    requires PrintableFirst(first, others) && !first.tree.Leaf?
    ensures (first.tree.Branch? || first.tree.Items?) && PrintableBelow(first.tree, false)
    ensures first.tree == Branch([]) ==> others == []
  {
  }

  // The value of the first field: in the line of the dash, or nested two columns deeper than the other fields.
  lemma {:induction false} ReadsFirstValue(
    lines: seq<string>, index: nat, first: Field, others: seq<Field>, depth: nat, next: nat, end: nat)
    requires PrintableFirst(first, others) && Printable(others) && !first.tree.Leaf?
    requires At(lines, index, Below(first.tree, depth + 4)) && next == index + |Below(first.tree, depth + 4)|
    requires At(lines, next, Print(others, depth + 2)) && end == next + |Print(others, depth + 2)| && Shallow(lines, end, depth)
    ensures Child(lines, index, depth, Map([])) == (TreeValue(first.tree), next)
    decreases first, 3
  {
    OthersFollow(lines, next, others, depth, end);
    FirstIsNested(first, others);
    ReadsBelow(lines, index, first.tree, depth, depth + 4, false, Map([]), next);
  }

  // An item with a key whose values have been read.
  lemma InlineValue(
    lines: seq<string>, index: nat, first: Field, others: seq<Field>, depth: nat, value: Value, next: nat, end: nat)
    requires PrintableFirst(first, others) && Printable(others)
    requires index <= |lines|
    requires if first.tree.Leaf? then (value, next) == (Scalar(first.tree.text), index)
             else Child(lines, index, depth, Map([])) == (value, next)
    requires next <= |lines| && Child(lines, next, depth, Map([])) == (Map(Meaning(others)), end)
    ensures ItemValue(lines, index, depth, Strip(first.key + ":" + AfterColon(first.tree)))
         == (Map([(first.key, value)] + Meaning(others)), end)
  {
    PairShows(first.key, first.tree);
    assert Strip(first.key) == first.key;
    PairItemIs(lines, index, depth, first.key, AfterColon(first.tree), value, next, Meaning(others), end);
    UpdateNewKeys([(first.key, value)], others);
  }

  lemma {:induction false} ReadsInline(
    lines: seq<string>, index: nat, first: Field, others: seq<Field>, depth: nat, next: nat, end: nat)
    requires PrintableFirst(first, others) && Printable(others)
    requires At(lines, index, Below(first.tree, depth + 4)) && next == index + |Below(first.tree, depth + 4)|
    requires At(lines, next, Print(others, depth + 2)) && end == next + |Print(others, depth + 2)| && Shallow(lines, end, depth)
    ensures ItemValue(lines, index, depth, Strip(first.key + ":" + AfterColon(first.tree)))
         == (Map([(first.key, TreeValue(first.tree))] + Meaning(others)), end)
    decreases Inline(first, others), 1
  {
    if !first.tree.Leaf? {
      ReadsFirstValue(lines, index, first, others, depth, next, end);
    }
    ReadsOthers(lines, next, others, depth, end);
    InlineValue(lines, index, first, others, depth, TreeValue(first.tree), next, end);
  }

  lemma InlineParts(lines: seq<string>, index: nat, first: Field, others: seq<Field>, depth: nat)
    requires At(lines, index, Below(Inline(first, others), depth + 2))
    ensures var block, more := Below(first.tree, depth + 4), Print(others, depth + 2);
            && At(lines, index, block) && At(lines, index + |block|, more)
            && |Below(Inline(first, others), depth + 2)| == |block| + |more|
  {
    AtSplit(lines, index, Below(first.tree, depth + 4), Print(others, depth + 2));
  }

  // ---------- Printed items ----------

  lemma {:induction false} ReadsFirstItem(
    lines: seq<string>, index: nat, item: Tree, rest: seq<Tree>, depth: nat, next: nat, end: nat)
    requires PrintableBelow(item, true)
    requires At(lines, index, Below(item, depth + 2)) && next == index + |Below(item, depth + 2)|
    requires At(lines, next, PrintItems(rest, depth)) && end == next + |PrintItems(rest, depth)| && Shallow(lines, end, depth)
    ensures ItemValue(lines, index, depth, Strip(AfterDash(item))) == (TreeValue(item), next)
    decreases item, 3
  {
    RestOfItemsIsShallow(lines, next, rest, depth, end);
    ReadsItemValue(lines, index, item, depth, next);
  }

  lemma ItemParts(lines: seq<string>, index: nat, items: seq<Tree>, depth: nat)
    requires items != [] && At(lines, index, PrintItems(items, depth))
    ensures var block, more := Below(items[0], depth + 2), PrintItems(items[1..], depth);
            && index < |lines| && lines[index] == ItemLine(items[0], depth)
            && At(lines, index + 1, block) && At(lines, index + 1 + |block|, more)
            && |PrintItems(items, depth)| == 1 + |block| + |more|
  {
    PrintItemsStep(items, depth);
    AtParts(lines, index, PrintItems(items, depth), ItemLine(items[0], depth), Below(items[0], depth + 2),
            PrintItems(items[1..], depth));
  }

  lemma PrintItemsStep(items: seq<Tree>, depth: nat)
    requires items != []
    ensures PrintItems(items, depth) ==
            [ItemLine(items[0], depth)] + Below(items[0], depth + 2) + PrintItems(items[1..], depth)
  {
  }

  lemma RestOfItemsIsShallow(lines: seq<string>, at: nat, rest: seq<Tree>, depth: nat, end: nat)
    requires At(lines, at, PrintItems(rest, depth)) && end == at + |PrintItems(rest, depth)| && Shallow(lines, end, depth)
    ensures Shallow(lines, at, depth)
  {
    if rest != [] {
      ItemLineShows(depth, AfterDash(rest[0]));
      AtFirst(lines, at, PrintItems(rest, depth));
    }
  }

  // The list parser reads printed items wherever they stand, as long as the line after them, if any, is less deep.
  lemma {:induction false} ReadsItems(lines: seq<string>, index: nat, items: seq<Tree>, depth: nat, done: seq<Value>, end: nat)
    requires At(lines, index, PrintItems(items, depth)) && end == index + |PrintItems(items, depth)| && Ends(lines, end, depth)
    requires PrintableItems(items)
    ensures ListFrom(lines, index, depth, done) == (done + Values(items), end)
    decreases items, 1
  {
    if items == [] {
      ListStopsThere(lines, index, depth, done);
    } else {
      var next := index + 1 + |Below(items[0], depth + 2)|;
      ItemParts(lines, index, items, depth);
      ReadsFirstItem(lines, index + 1, items[0], items[1..], depth, next, end);
      var longer := done + [TreeValue(items[0])];
      ReadsItems(lines, next, items[1..], depth, longer, end);
      ItemThenRest(lines, index, next, items, depth, done, longer, end);
    }
  }

  lemma ValuesStep(done: seq<Value>, items: seq<Tree>)
    requires items != []
    ensures done + [TreeValue(items[0])] + Values(items[1..]) == done + Values(items)
  {
  }

  // A first item that was read, then the rest.
  lemma ItemThenRest(
    lines: seq<string>, index: nat, next: nat, items: seq<Tree>, depth: nat, done: seq<Value>, longer: seq<Value>, end: nat)
    requires items != [] && index < |lines| && lines[index] == ItemLine(items[0], depth)
    requires ItemValue(lines, index + 1, depth, Strip(AfterDash(items[0]))) == (TreeValue(items[0]), next) && next <= |lines|
    requires longer == done + [TreeValue(items[0])]
    requires ListFrom(lines, next, depth, longer) == (longer + Values(items[1..]), end)
    ensures ListFrom(lines, index, depth, done) == (done + Values(items), end)
  {
    ItemStep(lines, index, depth, AfterDash(items[0]), TreeValue(items[0]), next, done);
    ValuesStep(done, items);
  }

  lemma ListStopsThere(lines: seq<string>, index: nat, depth: nat, items: seq<Value>)
    requires Ends(lines, index, depth)
    ensures ListFrom(lines, index, depth, items) == (items + Values([]), index)
  {
    assert items + Values([]) == items;
    ListFromSkips(lines, index, depth, items);
    if index < |lines| {
      ListFromLine(lines, index, depth, items);
    }
  }

  // ---------- Whole texts ----------

  lemma {:induction false} SetNewKey(entries: Entries, key: string, value: Value)
    requires forall k :: 0 <= k < |entries| ==> entries[k].0 != key
    ensures Set(entries, key, value) == entries + [(key, value)]
  {
    if entries == [] {
    } else {
      SetNewKey(entries[1..], key, value);
    }
  }

  ghost predicate NewKeys(entries: Entries, fields: seq<Field>) {
    forall j, k :: 0 <= j < |entries| && 0 <= k < |fields| ==> entries[j].0 != fields[k].key
  }

  lemma RestIsShallow(lines: seq<string>, at: nat, rest: seq<Field>, depth: nat, end: nat)
    requires Printable(rest) && At(lines, at, Print(rest, depth)) && end == at + |Print(rest, depth)| && Shallow(lines, end, depth)
    ensures Shallow(lines, at, depth)
  {
    if rest != [] {
      FirstPrintedLine(rest, depth);
      AtFirst(lines, at, Print(rest, depth));
    }
  }

  lemma StopsThere(lines: seq<string>, index: nat, depth: nat, entries: Entries)
    requires Shallow(lines, index, depth) && (index < |lines| ==> LineIndent(lines[index]) < depth)
    ensures MapFrom(lines, index, depth, entries) == (entries, index)
  {
    MapFromSkips(lines, index, depth, entries);
    if index < |lines| {
      MapFromLine(lines, index, depth, entries);
    }
  }

  lemma NewKeysGrow(entries: Entries, fields: seq<Field>, value: Value)
    requires fields != [] && NewKeys(entries, fields)
    requires forall k :: 1 <= k < |fields| ==> fields[k].key != fields[0].key
    ensures NewKeys(entries + [(fields[0].key, value)], fields[1..])
    ensures Set(entries, fields[0].key, value) == entries + [(fields[0].key, value)]
  {
    SetNewKey(entries, fields[0].key, value);
  }

  lemma {:induction false} ReadsFirstField(
    lines: seq<string>, index: nat, tree: Tree, rest: seq<Field>, depth: nat, next: nat, end: nat)
    requires PrintableBelow(tree, false) && Printable(rest)
    requires At(lines, index, Below(tree, depth + 2)) && next == index + |Below(tree, depth + 2)|
    requires At(lines, next, Print(rest, depth)) && end == next + |Print(rest, depth)| && Shallow(lines, end, depth)
    ensures EntryValue(lines, index, depth, Strip(AfterColon(tree))) == (TreeValue(tree), next)
    decreases tree, 3
  {
    RestIsShallow(lines, next, rest, depth, end);
    ReadsFieldValue(lines, index, tree, depth, next);
  }

  // The first field and its value, and where the others stand.
  lemma {:induction false} ReadsFirst(lines: seq<string>, index: nat, fields: seq<Field>, depth: nat, next: nat, end: nat)
    requires fields != [] && Printable(fields) && At(lines, index, Print(fields, depth))
    requires end == index + |Print(fields, depth)| && Shallow(lines, end, depth)
    requires next == index + 1 + |Below(fields[0].tree, depth + 2)|
    ensures index < |lines| && lines[index] == FirstLine(fields[0], depth) && next <= |lines|
    ensures EntryValue(lines, index + 1, depth, Strip(AfterColon(fields[0].tree))) == (TreeValue(fields[0].tree), next)
    ensures At(lines, next, Print(fields[1..], depth)) && end == next + |Print(fields[1..], depth)|
    decreases fields, 0
  {
    FieldParts(lines, index, fields, depth);
    ReadsFirstField(lines, index + 1, fields[0].tree, fields[1..], depth, next, end);
  }

  lemma FieldParts(lines: seq<string>, index: nat, fields: seq<Field>, depth: nat)
    requires fields != [] && At(lines, index, Print(fields, depth))
    ensures var block, more := Below(fields[0].tree, depth + 2), Print(fields[1..], depth);
            && index < |lines| && lines[index] == FirstLine(fields[0], depth)
            && At(lines, index + 1, block) && At(lines, index + 1 + |block|, more)
            && |Print(fields, depth)| == 1 + |block| + |more|
  {
    PrintStep(fields, depth);
    AtParts(lines, index, Print(fields, depth), FirstLine(fields[0], depth), Below(fields[0].tree, depth + 2),
            Print(fields[1..], depth));
  }

  lemma PrintStep(fields: seq<Field>, depth: nat)
    requires fields != []
    ensures Print(fields, depth) ==
            [FirstLine(fields[0], depth)] + Below(fields[0].tree, depth + 2) + Print(fields[1..], depth)
  {
  }

  lemma MeaningStep(entries: Entries, fields: seq<Field>)
    requires fields != []
    ensures entries + [(fields[0].key, TreeValue(fields[0].tree))] + Meaning(fields[1..]) == entries + Meaning(fields)
  {
  }

  // A first entry that was read, then the rest.
  lemma ReadThenRest(
    lines: seq<string>, index: nat, next: nat, fields: seq<Field>, depth: nat, entries: Entries, longer: Entries, end: nat)
    requires fields != [] && PlainKey(fields[0].key) && index < |lines| && lines[index] == FirstLine(fields[0], depth)
    requires EntryValue(lines, index + 1, depth, Strip(AfterColon(fields[0].tree))) == (TreeValue(fields[0].tree), next)
    requires next <= |lines|
    requires longer == entries + [(fields[0].key, TreeValue(fields[0].tree))]
    requires Set(entries, fields[0].key, TreeValue(fields[0].tree)) == longer
    requires MapFrom(lines, next, depth, longer) == (longer + Meaning(fields[1..]), end)
    ensures MapFrom(lines, index, depth, entries) == (entries + Meaning(fields), end)
  {
    EntryStep(lines, index, depth, fields[0].key, AfterColon(fields[0].tree), TreeValue(fields[0].tree), next, entries);
    MeaningStep(entries, fields);
  }

  lemma ReadsNothing(lines: seq<string>, index: nat, depth: nat, entries: Entries)
    requires index <= |lines| && Shallow(lines, index, depth)
    requires index < |lines| ==> LineIndent(lines[index]) < depth
    ensures MapFrom(lines, index, depth, entries) == (entries + Meaning([]), index)
  {
    assert entries + Meaning([]) == entries;
    StopsThere(lines, index, depth, entries);
  }

  lemma GrowPrintable(entries: Entries, fields: seq<Field>)
    requires fields != [] && Printable(fields) && NewKeys(entries, fields)
    ensures var longer := entries + [(fields[0].key, TreeValue(fields[0].tree))];
            && Printable(fields[1..]) && NewKeys(longer, fields[1..])
            && Set(entries, fields[0].key, TreeValue(fields[0].tree)) == longer
  {
    NewKeysGrow(entries, fields, TreeValue(fields[0].tree));
  }

  // The map parser reads a printed block wherever it stands, as long as the line after it, if any, is less deep.
  lemma {:induction false} ReadsPrinted(
    lines: seq<string>, index: nat, fields: seq<Field>, depth: nat, entries: Entries, end: nat)
    requires At(lines, index, Print(fields, depth)) && end == index + |Print(fields, depth)| && Ends(lines, end, depth)
    requires Printable(fields) && NewKeys(entries, fields)
    ensures MapFrom(lines, index, depth, entries) == (entries + Meaning(fields), end)
    decreases fields, 1
  {
    if fields == [] {
      ReadsNothing(lines, index, depth, entries);
    } else {
      var longer := entries + [(fields[0].key, TreeValue(fields[0].tree))];
      var next := index + 1 + |Below(fields[0].tree, depth + 2)|;
      ReadsFirst(lines, index, fields, depth, next, end);
      GrowPrintable(entries, fields);
      ReadsPrinted(lines, next, fields[1..], depth, longer, end);
      ReadThenRest(lines, index, next, fields, depth, entries, longer, end);
    }
  }

  // Reading back what was printed gives the same mapping, for every nesting of mappings and lists over plain
  // keys, plain texts, and texts over several lines.
  lemma PrintThenParse(fields: seq<Field>)
    requires Printable(fields)
    ensures Frontmatter(Print(fields, 0)) == Meaning(fields)
  {
    var lines := Print(fields, 0);
    ReadsPrinted(lines, 0, fields, 0, [], |lines|);
    assert [] + Meaning(fields) == Meaning(fields);
    if fields != [] {
      FirstPrintedLine(fields, 0);
      assert SkipBlank(lines, 0) == 0;
    }
  }
}
