/**
 What the yaml-like parsers read: where each call stops, that a call at an indentation consumes only lines indented at
 least that far, and that the index-passing parsers mean the same as a scan that looks at one line after the other.
 */
module YamlishTheorems {
  import opened Text
  import opened Wrappers
  import opened Yamlish

  // ---------- Containment ----------

  // The lines of [index, end) are blank, comments, or indented at least `indent`.
  ghost predicate AtLeast(lines: seq<string>, index: nat, end: nat, indent: nat) {
    index <= end <= |lines| && forall j :: index <= j < end ==> Blank(lines[j]) || LineIndent(lines[j]) >= indent
  }

  // The first line from `index` on that ends a map at this indentation.
  function MapStop(lines: seq<string>, index: nat, indent: nat): (stop: nat)
    requires index <= |lines|
    ensures index <= stop <= |lines|
    ensures stop < |lines| ==> !Blank(lines[stop]) && EndsMap(lines[stop], indent)
    ensures forall j :: index <= j < stop ==> Blank(lines[j]) || !EndsMap(lines[j], indent)
    decreases |lines| - index
  {
    if index == |lines| || (!Blank(lines[index]) && EndsMap(lines[index], indent)) then index
    else MapStop(lines, index + 1, indent)
  }

  lemma {:induction false} MapStopSkips(lines: seq<string>, index: nat, next: nat, indent: nat)
    requires index <= next <= |lines|
    requires forall j :: index <= j < next ==> Blank(lines[j]) || !EndsMap(lines[j], indent)
    ensures MapStop(lines, index, indent) == MapStop(lines, next, indent)
    decreases next - index
  {
    if index == next {
    } else {
      MapStopSkips(lines, index + 1, next, indent);
    }
  }

  lemma {:induction false} NodeContained(lines: seq<string>, index: nat, indent: nat)
    requires index <= |lines|
    ensures AtLeast(lines, index, Node(lines, index, indent).1, indent)
    decreases |lines| - index, 2
  {
    var start := SkipBlank(lines, index);
    if start < |lines| && LineIndent(lines[start]) >= indent {
      var current := LineIndent(lines[start]);
      if IsItem(lines[start]) {
        ListContained(lines, start, current, []);
      } else {
        MapExtent(lines, start, current, []);
      }
    }
  }

  lemma ChildContained(lines: seq<string>, index: nat, indent: nat, missing: Value)
    requires index <= |lines|
    ensures AtLeast(lines, index, Child(lines, index, indent, missing).1, indent + 1)
    decreases |lines| - index, 3
  {
    var child := NextIndent(lines, index, indent);
    if child.Some? {
      NodeContained(lines, index, child.value);
    }
  }

  lemma EntryContained(lines: seq<string>, index: nat, indent: nat, text: string)
    requires index <= |lines|
    ensures AtLeast(lines, index, EntryValue(lines, index, indent, text).1, indent + 1)
    decreases |lines| - index, 4
  {
    if text != "|" && text != ">" {
      ChildContained(lines, index, indent, Map([]));
    }
  }

  lemma ItemContained(lines: seq<string>, index: nat, indent: nat, text: string)
    requires index <= |lines|
    ensures AtLeast(lines, index, ItemValue(lines, index, indent, text).1, indent + 1)
    decreases |lines| - index, 4
  {
    ChildContained(lines, index, indent, Str(""));
    ChildContained(lines, index, indent, Map([]));
    if IsPairItem(text) {
      var rest := Strip(Partition(text).rest);
      var next := if rest != "" then index else Child(lines, index, indent, Map([])).1;
      ChildContained(lines, next, indent, Map([]));
    }
  }

  // A map call reads up to the first line that ends it, no matter what is nested inside.
  lemma {:induction false} MapExtent(lines: seq<string>, index: nat, indent: nat, entries: Entries)
    requires index <= |lines|
    ensures MapFrom(lines, index, indent, entries).1 == MapStop(lines, index, indent)
    decreases |lines| - index, 1
  {
    var i := SkipBlank(lines, index);
    MapFromSkips(lines, index, indent, entries);
    MapStopSkips(lines, index, i, indent);
    if i < |lines| {
      MapFromLine(lines, i, indent, entries);
      if IsEntry(lines[i], indent) {
        var parts := Partition(Content(lines[i]));
        var (value, next) := EntryValue(lines, i + 1, indent, Strip(parts.rest));
        EntryContained(lines, i + 1, indent, Strip(parts.rest));
        MapStopSkips(lines, i, next, indent);
        MapExtent(lines, next, indent, Set(entries, Strip(parts.key), value));
      } else if !EndsMap(lines[i], indent) {
        MapExtent(lines, i + 1, indent, entries);
      }
    }
  }

  // A list call stops at the end or at a line that is not an item of the list, and stays at its indentation.
  lemma {:induction false} ListContained(lines: seq<string>, index: nat, indent: nat, items: seq<Value>)
    requires index <= |lines|
    ensures var end := ListFrom(lines, index, indent, items).1;
            && AtLeast(lines, index, end, indent)
            && (end < |lines| ==> !Blank(lines[end]) && !IsItemAt(lines[end], indent))
    decreases |lines| - index, 1
  {
    var i := SkipBlank(lines, index);
    ListFromSkips(lines, index, indent, items);
    if i < |lines| {
      ListFromLine(lines, i, indent, items);
      if IsItemAt(lines[i], indent) {
        var text := Strip(Content(lines[i])[2..]);
        var (value, next) := ItemValue(lines, i + 1, indent, text);
        ItemContained(lines, i + 1, indent, text);
        ListContained(lines, next, indent, items + [value]);
      }
    }
  }

  // A call on a line that fits it always makes progress.
  lemma CallsAdvance(lines: seq<string>, index: nat, indent: nat)
    requires index < |lines| && !Blank(lines[index]) && LineIndent(lines[index]) == indent
    ensures !IsItem(lines[index]) ==> MapFrom(lines, index, indent, []).1 > index
    ensures IsItem(lines[index]) ==> ListFrom(lines, index, indent, []).1 > index
    ensures Node(lines, index, indent).1 > index
  {
    assert SkipBlank(lines, index) == index;
    if IsItem(lines[index]) {
      ListFromLine(lines, index, indent, []);
    } else {
      MapExtent(lines, index, indent, []);
    }
  }

  // ---------- Meaning: one line after the other ----------

  function EntryKey(line: string): string {
    Strip(Partition(Content(line)).key)
  }

  function EntryAt(lines: seq<string>, i: nat, indent: nat): Value
    requires i < |lines|
  {
    EntryValue(lines, i + 1, indent, Strip(Partition(Content(lines[i])).rest)).0
  }

  // What one line adds.
  function MapScanLine(lines: seq<string>, i: nat, indent: nat, entries: Entries): Entries
    requires i < |lines|
  {
    if !Blank(lines[i]) && IsEntry(lines[i], indent) then Set(entries, EntryKey(lines[i]), EntryAt(lines, i, indent)) else entries
  }

  // Reads every line of [from, until), and takes exactly the entry lines at this indentation.
  function MapScan(lines: seq<string>, from: nat, until: nat, indent: nat, entries: Entries): Entries
    requires from <= until <= |lines|
    decreases until - from
  {
    if from == until then entries else MapScan(lines, from + 1, until, indent, MapScanLine(lines, from, indent, entries))
  }

  lemma {:induction false} MapScanSkips(lines: seq<string>, from: nat, next: nat, until: nat, indent: nat, entries: Entries)
    requires from <= next <= until <= |lines|
    requires forall j :: from <= j < next ==> Blank(lines[j]) || !IsEntry(lines[j], indent)
    ensures MapScan(lines, from, until, indent, entries) == MapScan(lines, next, until, indent, entries)
    decreases next - from
  {
    if from == next {
    } else {
      MapScanSkips(lines, from + 1, next, until, indent, entries);
    }
  }

  // An entry line followed by the lines that its value reads adds one entry.
  lemma MapScanEntry(lines: seq<string>, i: nat, next: nat, until: nat, indent: nat, entries: Entries)
    requires i < next <= until <= |lines|
    requires !Blank(lines[i]) && IsEntry(lines[i], indent) && AtLeast(lines, i + 1, next, indent + 1)
    ensures MapScan(lines, i, until, indent, entries)
         == MapScan(lines, next, until, indent, Set(entries, EntryKey(lines[i]), EntryAt(lines, i, indent)))
  {
    MapScanSkips(lines, i + 1, next, until, indent, Set(entries, EntryKey(lines[i]), EntryAt(lines, i, indent)));
  }

  function EntryNext(lines: seq<string>, i: nat, indent: nat): nat
    requires i < |lines|
  {
    EntryValue(lines, i + 1, indent, Strip(Partition(Content(lines[i])).rest)).1
  }

  lemma MapFromEntry(lines: seq<string>, i: nat, indent: nat, entries: Entries)
    requires i < |lines| && !Blank(lines[i]) && IsEntry(lines[i], indent)
    ensures var next := EntryNext(lines, i, indent);
            && i < next && AtLeast(lines, i + 1, next, indent + 1)
            && MapFrom(lines, i, indent, entries)
               == MapFrom(lines, next, indent, Set(entries, EntryKey(lines[i]), EntryAt(lines, i, indent)))
            && MapStop(lines, i, indent) == MapStop(lines, next, indent)
  {
    MapFromLine(lines, i, indent, entries);
    EntryContained(lines, i + 1, indent, Strip(Partition(Content(lines[i])).rest));
    MapStopSkips(lines, i, EntryNext(lines, i, indent), indent);
  }

  // The map parser, which jumps over what its nested calls have read, gives the entries of the plain scan up to its stop:
  // nothing nested is ever taken for an entry, and no entry is ever swallowed by something nested.
  lemma {:induction false} MapIsScan(lines: seq<string>, index: nat, indent: nat, entries: Entries)
    requires index <= |lines|
    ensures var stop := MapStop(lines, index, indent);
            MapFrom(lines, index, indent, entries) == (MapScan(lines, index, stop, indent, entries), stop)
    decreases |lines| - index
  {
    var i := SkipBlank(lines, index);
    var stop := MapStop(lines, index, indent);
    MapFromSkips(lines, index, indent, entries);
    MapStopSkips(lines, index, i, indent);
    MapScanSkips(lines, index, i, stop, indent, entries);
    if i < |lines| {
      if IsEntry(lines[i], indent) {
        var next := EntryNext(lines, i, indent);
        MapFromEntry(lines, i, indent, entries);
        MapScanEntry(lines, i, next, stop, indent, entries);
        MapIsScan(lines, next, indent, Set(entries, EntryKey(lines[i]), EntryAt(lines, i, indent)));
      } else {
        MapFromLine(lines, i, indent, entries);
        if !EndsMap(lines[i], indent) {
          MapIsScan(lines, i + 1, indent, entries);
        }
      }
    }
  }

  function Lookup(entries: Entries, key: string): Option<Value> {
    if entries == [] then None else if entries[0].0 == key then Some(entries[0].1) else Lookup(entries[1..], key)
  }

  lemma {:induction false} SetThenLookup(entries: Entries, key: string, value: Value, other: string)
    ensures Lookup(Set(entries, key, value), other) == if other == key then Some(value) else Lookup(entries, other)
  {
    if entries == [] || entries[0].0 == key {
    } else {
      SetThenLookup(entries[1..], key, value, other);
    }
  }

  // The last entry line for `key` in [from, until).
  function LastEntry(lines: seq<string>, from: nat, until: nat, indent: nat, key: string): (i: Option<nat>)
    requires from <= until <= |lines|
    ensures i.Some? ==> from <= i.value < until
    decreases until - from
  {
    if from == until then None
    else if !Blank(lines[until - 1]) && IsEntry(lines[until - 1], indent) && EntryKey(lines[until - 1]) == key then Some(until - 1)
    else LastEntry(lines, from, until - 1, indent, key)
  }

  lemma MapScanFirst(lines: seq<string>, from: nat, until: nat, indent: nat, entries: Entries)
    requires from < until <= |lines|
    ensures MapScan(lines, from, until, indent, entries)
         == MapScan(lines, from + 1, until, indent, MapScanLine(lines, from, indent, entries))
  {
  }

  lemma {:induction false} MapScanLast(lines: seq<string>, from: nat, until: nat, indent: nat, entries: Entries)
    requires from < until <= |lines|
    ensures MapScan(lines, from, until, indent, entries)
         == MapScanLine(lines, until - 1, indent, MapScan(lines, from, until - 1, indent, entries))
    decreases until - from
  {
    if from >= until - 1 {
    } else {
      var next := MapScanLine(lines, from, indent, entries);
      MapScanFirst(lines, from, until, indent, entries);
      MapScanFirst(lines, from, until - 1, indent, entries);
      MapScanLast(lines, from + 1, until, indent, next);
    }
  }

  lemma {:induction false} ScanLookup(lines: seq<string>, from: nat, until: nat, indent: nat, key: string)
    requires from <= until <= |lines|
    ensures Lookup(MapScan(lines, from, until, indent, []), key) ==
            match LastEntry(lines, from, until, indent, key)
            case None => None
            case Some(i) => Some(EntryAt(lines, i, indent))
    decreases until - from
  {
    if from == until {
    } else {
      ScanLookup(lines, from, until - 1, indent, key);
      MapScanLast(lines, from, until, indent, []);
      LookupAfterLine(lines, until - 1, indent, key, MapScan(lines, from, until - 1, indent, []));
    }
  }

  lemma LookupAfterLine(lines: seq<string>, i: nat, indent: nat, key: string, before: Entries)
    requires i < |lines|
    ensures var isEntry := !Blank(lines[i]) && IsEntry(lines[i], indent);
            Lookup(MapScanLine(lines, i, indent, before), key) == if isEntry && EntryKey(lines[i]) == key then Some(EntryAt(lines, i, indent)) else Lookup(before, key)
  {
    if !Blank(lines[i]) && IsEntry(lines[i], indent) {
      SetThenLookup(before, EntryKey(lines[i]), EntryAt(lines, i, indent), key);
    }
  }

  // What a map call returns for a key: the value of the last entry line of that key before the map ends, if there is one.
  lemma MapMeans(lines: seq<string>, index: nat, indent: nat, key: string)
    requires index <= |lines|
    ensures Lookup(MapFrom(lines, index, indent, []).0, key) ==
            match LastEntry(lines, index, MapStop(lines, index, indent), indent, key)
            case None => None
            case Some(i) => Some(EntryAt(lines, i, indent))
  {
    MapIsScan(lines, index, indent, []);
    ScanLookup(lines, index, MapStop(lines, index, indent), indent, key);
  }

  // What follows an item with a key adds to its mapping, and wins where both have a key.
  lemma {:induction false} UpdateMeans(entries: Entries, other: Entries, key: string)
    requires forall i, j :: 0 <= i < j < |other| ==> other[i].0 != other[j].0
    ensures Lookup(Update(entries, other), key) == if Lookup(other, key).Some? then Lookup(other, key) else Lookup(entries, key)
    decreases |other|
  {
    if other == [] {
    } else {
      var rest := other[1..];
      SetThenLookup(entries, other[0].0, other[0].1, key);
      UpdateMeans(Set(entries, other[0].0, other[0].1), rest, key);
      if key == other[0].0 {
        LookupNone(rest, key);
      }
    }
  }

  lemma {:induction false} LookupNone(entries: Entries, key: string)
    requires forall i :: 0 <= i < |entries| ==> entries[i].0 != key
    ensures Lookup(entries, key) == None
  {
    if entries == [] {
    } else {
      LookupNone(entries[1..], key);
    }
  }

  // The item lines of [from, until) at this indentation, each with its value.
  function ListScan(lines: seq<string>, from: nat, until: nat, indent: nat): seq<Value>
    requires from <= until <= |lines|
    decreases until - from
  {
    if from == until then []
    else if !Blank(lines[from]) && IsItemAt(lines[from], indent) then
      [ItemValue(lines, from + 1, indent, Strip(Content(lines[from])[2..])).0] + ListScan(lines, from + 1, until, indent)
    else ListScan(lines, from + 1, until, indent)
  }

  lemma {:induction false} ListScanSkips(lines: seq<string>, from: nat, next: nat, until: nat, indent: nat)
    requires from <= next <= until <= |lines|
    requires forall j :: from <= j < next ==> Blank(lines[j]) || !IsItemAt(lines[j], indent)
    ensures ListScan(lines, from, until, indent) == ListScan(lines, next, until, indent)
    decreases next - from
  {
    if from == next {
    } else {
      ListScanSkips(lines, from + 1, next, until, indent);
    }
  }

  function ItemAt(lines: seq<string>, i: nat, indent: nat): Value
    requires i < |lines| && !Blank(lines[i]) && IsItemAt(lines[i], indent)
  {
    ItemValue(lines, i + 1, indent, Strip(Content(lines[i])[2..])).0
  }

  lemma ListScanItem(lines: seq<string>, i: nat, next: nat, until: nat, indent: nat)
    requires i < next <= until <= |lines|
    requires !Blank(lines[i]) && IsItemAt(lines[i], indent) && AtLeast(lines, i + 1, next, indent + 1)
    ensures ListScan(lines, i, until, indent) == [ItemAt(lines, i, indent)] + ListScan(lines, next, until, indent)
  {
    ListScanSkips(lines, i + 1, next, until, indent);
  }

  function ItemNext(lines: seq<string>, i: nat, indent: nat): nat
    requires i < |lines| && !Blank(lines[i]) && IsItemAt(lines[i], indent)
  {
    ItemValue(lines, i + 1, indent, Strip(Content(lines[i])[2..])).1
  }

  lemma ListFromItem(lines: seq<string>, i: nat, indent: nat, items: seq<Value>)
    requires i < |lines| && !Blank(lines[i]) && IsItemAt(lines[i], indent)
    ensures var next := ItemNext(lines, i, indent);
            && i < next && AtLeast(lines, i + 1, next, indent + 1)
            && ListFrom(lines, i, indent, items) == ListFrom(lines, next, indent, items + [ItemAt(lines, i, indent)])
  {
    ListFromLine(lines, i, indent, items);
    ItemContained(lines, i + 1, indent, Strip(Content(lines[i])[2..]));
  }

  lemma AppendItem(items: seq<Value>, value: Value, rest: seq<Value>)
    ensures items + [value] + rest == items + ([value] + rest)
  {
  }

  // A list call returns one value for every item line at its indentation, in order, up to where it stops.
  lemma {:induction false} ListIsScan(lines: seq<string>, index: nat, indent: nat, items: seq<Value>)
    requires index <= |lines|
    ensures var (all, end) := ListFrom(lines, index, indent, items);
            all == items + ListScan(lines, index, end, indent)
    decreases |lines| - index
  {
    var i := SkipBlank(lines, index);
    var end := ListFrom(lines, index, indent, items).1;
    ListFromSkips(lines, index, indent, items);
    ListScanSkips(lines, index, i, end, indent);
    if i < |lines| {
      if IsItemAt(lines[i], indent) {
        var next, value := ItemNext(lines, i, indent), ItemAt(lines, i, indent);
        ListFromItem(lines, i, indent, items);
        ListScanItem(lines, i, next, end, indent);
        ListIsScan(lines, next, indent, items + [value]);
        AppendItem(items, value, ListScan(lines, next, end, indent));
      } else {
        ListFromLine(lines, i, indent, items);
      }
    }
  }
}
