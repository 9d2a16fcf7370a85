/**
 The yaml-like frontmatter parser of quantagent/agent_profiles.py: mutually recursive parsers that pass a line index.

 The functions are the parsers on values; the methods below them have the loops of the source. `_parse_scalar` is kept
 uninterpreted: a scalar is represented by its text.
 */
module Yamlish {
  import opened Text
  import opened Wrappers

  datatype Value = Scalar(raw: string) | Str(text: string) | Map(entries: Entries) | List(items: seq<Value>)

  // An ordered dictionary: keys in order of first insertion.
  type Entries = seq<(string, Value)>

  function Set(entries: Entries, key: string, value: Value): Entries {
    if entries == [] then [(key, value)]
    else if entries[0].0 == key then [(key, value)] + entries[1..]
    else [entries[0]] + Set(entries[1..], key, value)
  }

  // dict.update
  function Update(entries: Entries, other: Entries): Entries
    decreases |other|
  {
    if other == [] then entries else Update(Set(entries, other[0].0, other[0].1), other[1..])
  }

  // ---------- Lines ----------

  function LineIndent(line: string): (n: nat)
    ensures n <= |line|
  {
    if line != "" && line[0] == ' ' then 1 + LineIndent(line[1..]) else 0
  }

  // Nothing but white space, or a comment.
  predicate Blank(line: string) {
    Strip(line) == "" || Strip(line)[0] == '#'
  }

  function Content(line: string): string {
    line[LineIndent(line)..]
  }

  predicate IsItem(line: string) {
    "- " <= Content(line)
  }

  function SkipBlank(lines: seq<string>, index: nat): (next: nat)
    requires index <= |lines|
    ensures index <= next <= |lines|
    ensures forall j :: index <= j < next ==> Blank(lines[j])
    ensures next < |lines| ==> !Blank(lines[next])
    decreases |lines| - index
  {
    if index < |lines| && Blank(lines[index]) then SkipBlank(lines, index + 1) else index
  }

  function NextIndent(lines: seq<string>, index: nat, parent: nat): Option<nat>
    requires index <= |lines|
  {
    var probe := SkipBlank(lines, index);
    if probe < |lines| && LineIndent(lines[probe]) > parent then Some(LineIndent(lines[probe])) else None
  }

  // str.partition(":")
  datatype Parts = Parts(key: string, found: bool, rest: string)

  function Partition(s: string): Parts {
    if s == "" then Parts("", false, "")
    else if s[0] == ':' then Parts("", true, s[1..])
    else
      var tail := Partition(s[1..]);
      Parts([s[0]] + tail.key, tail.found, tail.rest)
  }

  // ---------- The parsers on values ----------

  predicate EndsBlock(line: string, parent: nat) {
    Strip(line) != "" && LineIndent(line) <= parent
  }

  function BlockEnd(lines: seq<string>, index: nat, parent: nat): (end: nat)
    requires index <= |lines|
    ensures index <= end <= |lines|
    ensures forall j :: index <= j < end ==> !EndsBlock(lines[j], parent)
    ensures end < |lines| ==> EndsBlock(lines[end], parent)
    decreases |lines| - index
  {
    if index < |lines| && !EndsBlock(lines[index], parent) then BlockEnd(lines, index + 1, parent) else index
  }

  function Dedent(line: string, indent: nat): string {
    if |line| >= indent then line[indent..] else ""
  }

  function Dedented(lines: seq<string>, index: nat, end: nat, indent: nat): seq<string>
    requires index <= end <= |lines|
  {
    seq(end - index, i requires 0 <= i < end - index => Dedent(lines[index + i], indent))
  }

  function Join(separator: string, parts: seq<string>): string {
    if parts == [] then "" else if |parts| == 1 then parts[0] else parts[0] + separator + Join(separator, parts[1..])
  }

  function StripNewlines(s: string): string {
    if s != "" && s[|s| - 1] == '\n' then StripNewlines(s[..|s| - 1]) else s
  }

  function Words(block: seq<string>): seq<string> {
    if block == [] then []
    else (if Strip(block[0]) != "" then [Strip(block[0])] else []) + Words(block[1..])
  }

  function BlockText(block: seq<string>, folded: bool): string {
    if folded then Join(" ", Words(block)) else StripNewlines(Join("\n", block))
  }

  function BlockScalar(lines: seq<string>, index: nat, parent: nat, folded: bool): (r: (string, nat))
    requires index <= |lines|
    ensures index <= r.1 <= |lines|
  {
    match NextIndent(lines, index, parent)
    case None => ("", index)
    case Some(indent) =>
      var end := BlockEnd(lines, index, parent);
      (BlockText(Dedented(lines, index, end, indent), folded), end)
  }

  function Node(lines: seq<string>, index: nat, indent: nat): (r: (Value, nat))
    requires index <= |lines|
    ensures index <= r.1 <= |lines|
    ensures r.0.Map? || r.0.List?
    decreases |lines| - index, 2
  {
    var start := SkipBlank(lines, index);
    if start >= |lines| || LineIndent(lines[start]) < indent then (Map([]), start)
    else
      var current := LineIndent(lines[start]);
      if IsItem(lines[start]) then
        var (items, end) := ListFrom(lines, start, current, []);
        (List(items), end)
      else
        var (entries, end) := MapFrom(lines, start, current, []);
        (Map(entries), end)
  }

  // The value of a map line whose text after the colon is `text`; `index` is the next line.
  function EntryValue(lines: seq<string>, index: nat, indent: nat, text: string): (r: (Value, nat))
    requires index <= |lines|
    ensures index <= r.1 <= |lines|
    decreases |lines| - index, 3
  {
    if text == "|" || text == ">" then
      var (block, end) := BlockScalar(lines, index, indent, text == ">");
      (Str(block), end)
    else if text != "" then (Scalar(text), index)
    else Child(lines, index, indent, Map([]))
  }

  // What is nested below a bare key, or below an empty list item.
  function Child(lines: seq<string>, index: nat, indent: nat, missing: Value): (r: (Value, nat))
    requires index <= |lines|
    ensures index <= r.1 <= |lines|
    decreases |lines| - index, 3, 0
  {
    match NextIndent(lines, index, indent)
    case None => (missing, index)
    case Some(child) => Node(lines, index, child)
  }

  // The loop of the map parser, with the entries read so far.
  function MapFrom(lines: seq<string>, index: nat, indent: nat, entries: Entries): (r: (Entries, nat))
    requires index <= |lines|
    ensures index <= r.1 <= |lines|
    decreases |lines| - index, 1
  {
    var i := SkipBlank(lines, index);
    if i >= |lines| || LineIndent(lines[i]) < indent then (entries, i)
    else if LineIndent(lines[i]) > indent then MapFrom(lines, i + 1, indent, entries)
    else if IsItem(lines[i]) then (entries, i)
    else
      var parts := Partition(Content(lines[i]));
      if !parts.found then MapFrom(lines, i + 1, indent, entries)
      else
        var (value, next) := EntryValue(lines, i + 1, indent, Strip(parts.rest));
        MapFrom(lines, next, indent, Set(entries, Strip(parts.key), value))
  }

  predicate IsPairItem(text: string) {
    var parts := Partition(text);
    && parts.found && Strip(parts.key) != ""
    && !("'" <= text) && !("\"" <= text)
    && (parts.rest == "" || IsSpace(parts.rest[0]))
  }

  // The value of a list item with this text; `index` is the next line.
  function ItemValue(lines: seq<string>, index: nat, indent: nat, text: string): (r: (Value, nat))
    requires index <= |lines|
    ensures index <= r.1 <= |lines|
    decreases |lines| - index, 4
  {
    if text == "" then Child(lines, index, indent, Str(""))
    else if IsPairItem(text) then
      var parts := Partition(text);
      var rest := Strip(parts.rest);
      var (value, next) := if rest != "" then (Scalar(rest), index) else Child(lines, index, indent, Map([]));
      var first := Set([], Strip(parts.key), value);
      var (more, end) := Child(lines, next, indent, Map([]));
      (Map(if more.Map? then Update(first, more.entries) else first), end)
    else (Scalar(text), index)
  }

  // The loop of the list parser, with the items read so far.
  function ListFrom(lines: seq<string>, index: nat, indent: nat, items: seq<Value>): (r: (seq<Value>, nat))
    requires index <= |lines|
    ensures index <= r.1 <= |lines|
    decreases |lines| - index, 1
  {
    var i := SkipBlank(lines, index);
    if i >= |lines| || LineIndent(lines[i]) != indent || !IsItem(lines[i]) then (items, i)
    else
      var (value, next) := ItemValue(lines, i + 1, indent, Strip(Content(lines[i])[2..]));
      ListFrom(lines, next, indent, items + [value])
  }

  function Frontmatter(lines: seq<string>): Entries {
    var (value, _) := Node(lines, 0, 0);
    if value.Map? then value.entries else []
  }

  // ---------- One step of each loop ----------

  lemma SkipBlankStays(lines: seq<string>, index: nat)
    requires index <= |lines|
    ensures SkipBlank(lines, SkipBlank(lines, index)) == SkipBlank(lines, index)
  {
  }

  lemma MapFromSkips(lines: seq<string>, index: nat, indent: nat, entries: Entries)
    requires index <= |lines|
    ensures MapFrom(lines, index, indent, entries) == MapFrom(lines, SkipBlank(lines, index), indent, entries)
    ensures MapFrom(lines, |lines|, indent, entries) == (entries, |lines|)
  {
    SkipBlankStays(lines, index);
  }

  predicate EndsMap(line: string, indent: nat) {
    LineIndent(line) < indent || (LineIndent(line) == indent && IsItem(line))
  }

  predicate IsEntry(line: string, indent: nat) {
    LineIndent(line) == indent && !IsItem(line) && Partition(Content(line)).found
  }

  lemma MapFromLine(lines: seq<string>, i: nat, indent: nat, entries: Entries)
    requires i < |lines| && !Blank(lines[i])
    ensures EndsMap(lines[i], indent) ==> MapFrom(lines, i, indent, entries) == (entries, i)
    ensures !EndsMap(lines[i], indent) && !IsEntry(lines[i], indent) ==>
              MapFrom(lines, i, indent, entries) == MapFrom(lines, i + 1, indent, entries)
    ensures IsEntry(lines[i], indent) ==>
              var parts := Partition(Content(lines[i]));
              var (value, next) := EntryValue(lines, i + 1, indent, Strip(parts.rest));
              MapFrom(lines, i, indent, entries) == MapFrom(lines, next, indent, Set(entries, Strip(parts.key), value))
  {
    assert SkipBlank(lines, i) == i;
  }

  lemma ListFromSkips(lines: seq<string>, index: nat, indent: nat, items: seq<Value>)
    requires index <= |lines|
    ensures ListFrom(lines, index, indent, items) == ListFrom(lines, SkipBlank(lines, index), indent, items)
    ensures ListFrom(lines, |lines|, indent, items) == (items, |lines|)
  {
    SkipBlankStays(lines, index);
  }

  predicate IsItemAt(line: string, indent: nat) {
    LineIndent(line) == indent && IsItem(line)
  }

  lemma ListFromLine(lines: seq<string>, i: nat, indent: nat, items: seq<Value>)
    requires i < |lines| && !Blank(lines[i])
    ensures !IsItemAt(lines[i], indent) ==> ListFrom(lines, i, indent, items) == (items, i)
    ensures IsItemAt(lines[i], indent) ==>
              var (value, next) := ItemValue(lines, i + 1, indent, Strip(Content(lines[i])[2..]));
              ListFrom(lines, i, indent, items) == ListFrom(lines, next, indent, items + [value])
  {
    assert SkipBlank(lines, i) == i;
  }

  lemma DedentedGrows(lines: seq<string>, index: nat, end: nat, indent: nat)
    requires index <= end < |lines|
    ensures Dedented(lines, index, end + 1, indent) == Dedented(lines, index, end, indent) + [Dedent(lines[end], indent)]
  {
  }

  // ---------- The loops of the source ----------

  method SkipYamlishBlank(lines: seq<string>, start: nat) returns (index: nat)
    requires start <= |lines|
    ensures index == SkipBlank(lines, start)
  {
    index := start;
    while index < |lines|
      invariant start <= index <= |lines|
      invariant SkipBlank(lines, start) == SkipBlank(lines, index)
    {
      var stripped := Strip(lines[index]);
      if stripped != "" && stripped[0] != '#' {
        break;
      }
      index := index + 1;
    }
  }

  method ParseBlockScalar(lines: seq<string>, start: nat, parent: nat, folded: bool) returns (text: string, index: nat)
    requires start <= |lines|
    ensures (text, index) == BlockScalar(lines, start, parent, folded)
  {
    index := start;
    var child := NextIndent(lines, start, parent);
    if child.None? {
      return "", index;
    }
    var block: seq<string> := [];
    while index < |lines|
      invariant start <= index <= |lines|
      invariant BlockEnd(lines, start, parent) == BlockEnd(lines, index, parent)
      invariant block == Dedented(lines, start, index, child.value)
    {
      var line := lines[index];
      if Strip(line) != "" && LineIndent(line) <= parent {
        break;
      }
      block := block + [if |line| >= child.value then line[child.value..] else ""];
      DedentedGrows(lines, start, index, child.value);
      index := index + 1;
    }
    text := BlockText(block, folded);
  }

  method ParseNode(lines: seq<string>, start: nat, indent: nat) returns (value: Value, index: nat)
    requires start <= |lines|
    ensures (value, index) == Node(lines, start, indent)
    decreases |lines| - start, 2
  {
    index := SkipYamlishBlank(lines, start);
    if index >= |lines| {
      return Map([]), index;
    }
    var current := LineIndent(lines[index]);
    if current < indent {
      return Map([]), index;
    }
    if "- " <= lines[index][current..] {
      var items;
      items, index := ParseList(lines, index, current);
      return List(items), index;
    }
    var entries;
    entries, index := ParseMap(lines, index, current);
    return Map(entries), index;
  }

  method ParseEntryValue(lines: seq<string>, start: nat, indent: nat, text: string) returns (value: Value, index: nat)
    requires start <= |lines|
    ensures (value, index) == EntryValue(lines, start, indent, text)
    decreases |lines| - start, 3
  {
    index := start;
    if text == "|" || text == ">" {
      var block;
      block, index := ParseBlockScalar(lines, index, indent, text == ">");
      value := Str(block);
    } else if text != "" {
      value := Scalar(text);
    } else {
      value, index := ParseChild(lines, index, indent, Map([]));
    }
  }

  method ParseChild(lines: seq<string>, start: nat, indent: nat, missing: Value) returns (value: Value, index: nat)
    requires start <= |lines|
    ensures (value, index) == Child(lines, start, indent, missing)
    decreases |lines| - start, 3, 0
  {
    var child := NextIndent(lines, start, indent);
    if child.None? {
      return missing, start;
    }
    value, index := ParseNode(lines, start, child.value);
  }

  method ParseItemValue(lines: seq<string>, start: nat, indent: nat, text: string) returns (value: Value, index: nat)
    requires start <= |lines|
    ensures (value, index) == ItemValue(lines, start, indent, text)
    decreases |lines| - start, 4
  {
    index := start;
    if text == "" {
      value, index := ParseChild(lines, index, indent, Str(""));
      return;
    }
    if !IsPairItem(text) {
      return Scalar(text), index;
    }
    var parts := Partition(text);
    var rest := Strip(parts.rest);
    var first := Scalar(rest);
    if rest == "" {
      first, index := ParseChild(lines, index, indent, Map([]));
    }
    var item := Set([], Strip(parts.key), first);
    var more;
    more, index := ParseChild(lines, index, indent, Map([]));
    if more.Map? {
      item := Update(item, more.entries);
    }
    value := Map(item);
  }

  // The body of the map loop on a line with content: stop there, or go on after what the line reads.
  method ParseMapLine(lines: seq<string>, at: nat, indent: nat, before: Entries)
    returns (stop: bool, entries: Entries, index: nat)
    requires at < |lines| && !Blank(lines[at])
    ensures index <= |lines| && (stop ==> index == at) && (!stop ==> index > at)
    ensures MapFrom(lines, at, indent, before) == if stop then (entries, index) else MapFrom(lines, index, indent, entries)
    decreases |lines| - at, 0
  {
    MapFromLine(lines, at, indent, before);
    var line := lines[at];
    var current := LineIndent(line);
    if current < indent {
      return true, before, at;
    }
    if current > indent {
      return false, before, at + 1;
    }
    var content := line[current..];
    if "- " <= content {
      return true, before, at;
    }
    var parts := Partition(content);
    if !parts.found {
      return false, before, at + 1;
    }
    var value;
    value, index := ParseEntryValue(lines, at + 1, current, Strip(parts.rest));
    return false, Set(before, Strip(parts.key), value), index;
  }

  method ParseMap(lines: seq<string>, start: nat, indent: nat) returns (entries: Entries, index: nat)
    requires start <= |lines|
    ensures (entries, index) == MapFrom(lines, start, indent, [])
    decreases |lines| - start, 1
  {
    ghost var whole := MapFrom(lines, start, indent, []);
    entries, index := [], start;
    while index < |lines|
      invariant start <= index <= |lines|
      invariant whole == MapFrom(lines, index, indent, entries)
      decreases |lines| - index
    {
      MapFromSkips(lines, index, indent, entries);
      index := SkipYamlishBlank(lines, index);
      if index >= |lines| {
        break;
      }
      var stop;
      stop, entries, index := ParseMapLine(lines, index, indent, entries);
      if stop {
        return;
      }
    }
    MapFromSkips(lines, index, indent, entries);
  }

  // The body of the list loop on a line with content: stop there, or go on after what the item reads.
  method ParseListLine(lines: seq<string>, at: nat, indent: nat, before: seq<Value>)
    returns (stop: bool, items: seq<Value>, index: nat)
    requires at < |lines| && !Blank(lines[at])
    ensures index <= |lines| && (stop ==> index == at) && (!stop ==> index > at)
    ensures ListFrom(lines, at, indent, before) == if stop then (items, index) else ListFrom(lines, index, indent, items)
    decreases |lines| - at, 0
  {
    ListFromLine(lines, at, indent, before);
    var line := lines[at];
    var current := LineIndent(line);
    if current < indent {
      return true, before, at;
    }
    var content := line[current..];
    if current != indent || !("- " <= content) {
      return true, before, at;
    }
    var value;
    value, index := ParseItemValue(lines, at + 1, current, Strip(content[2..]));
    return false, before + [value], index;
  }

  method ParseList(lines: seq<string>, start: nat, indent: nat) returns (items: seq<Value>, index: nat)
    requires start <= |lines|
    ensures (items, index) == ListFrom(lines, start, indent, [])
    decreases |lines| - start, 1
  {
    ghost var whole := ListFrom(lines, start, indent, []);
    items, index := [], start;
    while index < |lines|
      invariant start <= index <= |lines|
      invariant whole == ListFrom(lines, index, indent, items)
      decreases |lines| - index
    {
      ListFromSkips(lines, index, indent, items);
      index := SkipYamlishBlank(lines, index);
      if index >= |lines| {
        break;
      }
      var stop;
      stop, items, index := ParseListLine(lines, index, indent, items);
      if stop {
        return;
      }
    }
    ListFromSkips(lines, index, indent, items);
  }
}
