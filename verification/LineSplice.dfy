/**
 The two routines of quantagent/agent_planner.py that replace top-level functions by line ranges, bottom-up.

 Which ranges to replace comes from a parser that is not part of this model: here the ranges are given, non-empty,
 disjoint and inside the source.
 */
module LineSplice {
  import opened Text

  // ---------- Lines ----------

  // The line boundaries of str.splitlines.
  predicate IsBreak(c: char) {
    var n := c as int;
    10 <= n <= 13 || 28 <= n <= 30 || n == 0x85 || n == 0x2028 || n == 0x2029
  }

  // str.splitlines(keepends=True)
  function SplitLines(text: string): seq<string>
    decreases |text|
  {
    if text == "" then []
    else if |text| >= 2 && text[0] == '\r' && text[1] == '\n' then [text[..2]] + SplitLines(text[2..])
    else if IsBreak(text[0]) then [text[..1]] + SplitLines(text[1..])
    else
      var rest := SplitLines(text[1..]);
      if rest == [] then [text[..1]] else [text[..1] + rest[0]] + rest[1..]
  }

  function Concat(lines: seq<string>): string {
    if lines == [] then "" else lines[0] + Concat(lines[1..])
  }

  lemma {:induction false} ConcatOver(a: seq<string>, b: seq<string>)
    ensures Concat(a + b) == Concat(a) + Concat(b)
  {
    if a == [] {
      assert a + b == b;
    } else {
      assert (a + b)[1..] == a[1..] + b;
      ConcatOver(a[1..], b);
    }
  }

  // Splitting loses nothing.
  lemma {:induction false} SplitThenConcat(text: string)
    ensures Concat(SplitLines(text)) == text
    decreases |text|
  {
    if text == "" {
    } else if |text| >= 2 && text[0] == '\r' && text[1] == '\n' {
      SplitThenConcat(text[2..]);
      ConcatOver([text[..2]], SplitLines(text[2..]));
      assert Concat([text[..2]]) == text[..2] && text == text[..2] + text[2..];
    } else {
      SplitThenConcat(text[1..]);
      var rest := SplitLines(text[1..]);
      assert text == text[..1] + text[1..];
      if IsBreak(text[0]) || rest == [] {
        ConcatOver([text[..1]], rest);
        assert Concat([text[..1]]) == text[..1];
      } else {
        assert ([text[..1] + rest[0]] + rest[1..])[1..] == rest[1..];
      }
    }
  }

  // ---------- Edits ----------

  // Replace the lines [start, end) by `piece`.
  datatype Edit = Edit(start: nat, end: nat, piece: seq<string>)

  ghost predicate Fits(edits: seq<Edit>, n: nat) {
    && (forall e :: e in edits ==> e.start < e.end <= n)
    && (forall i, j :: 0 <= i < |edits| && 0 <= j < |edits| && i != j ==>
                         edits[i].end <= edits[j].start || edits[j].end <= edits[i].start)
  }

  function Replace(lines: seq<string>, e: Edit): seq<string>
    requires e.start <= e.end <= |lines|
  {
    lines[..e.start] + e.piece + lines[e.end..]
  }

  ghost predicate Descending(edits: seq<Edit>) {
    forall i, j :: 0 <= i < j < |edits| ==> edits[j].end <= edits[i].start
  }

  // The edits one after the other.
  function Splice(lines: seq<string>, edits: seq<Edit>): seq<string>
    requires Descending(edits) && forall e :: e in edits ==> e.start < e.end <= |lines|
    decreases |edits|
  {
    if edits == [] then lines
    else
      forall e | e in edits[1..] ensures e.end <= edits[0].start { AllBelow(edits, e); }
      Splice(Replace(lines, edits[0]), edits[1..])
  }

  lemma AllBelow(edits: seq<Edit>, e: Edit)
    requires Descending(edits) && edits != [] && e in edits[1..]
    ensures e.end <= edits[0].start
  {
    var j :| 0 <= j < |edits[1..]| && edits[1..][j] == e;
    assert edits[j + 1] == e;
  }

  // The splicing loop.
  method SpliceInPlace(source: seq<string>, edits: seq<Edit>) returns (lines: seq<string>)
    requires Descending(edits) && forall e :: e in edits ==> e.start < e.end <= |source|
    ensures lines == Splice(source, edits)
  {
    lines := source;
    var i := 0;
    while i < |edits|
      invariant 0 <= i <= |edits|
      invariant forall e :: e in edits[i..] ==> e.start < e.end <= |lines|
      invariant Splice(source, edits) == Splice(lines, edits[i..])
    {
      var rest := edits[i..];
      assert rest[0] == edits[i] && rest[1..] == edits[i + 1..];
      assert edits[i] in rest;
      forall e | e in edits[i + 1..] ensures e.end <= edits[i].start && e in rest { AllBelow(rest, e); }
      lines := lines[..edits[i].start] + edits[i].piece + lines[edits[i].end..];
      i := i + 1;
    }
  }

  function Insert(e: Edit, sorted: seq<Edit>): seq<Edit> {
    if sorted == [] || e.start > sorted[0].start then [e] + sorted else [sorted[0]] + Insert(e, sorted[1..])
  }

  // sorted(..., reverse=True) on edits with different starts.
  function Sort(edits: seq<Edit>): seq<Edit> {
    if edits == [] then [] else Insert(edits[0], Sort(edits[1..]))
  }

  ghost predicate Apart(e: Edit, edits: seq<Edit>) {
    forall other :: other in edits ==> other.end <= e.start || e.end <= other.start
  }

  lemma {:induction false} InsertKeeps(e: Edit, sorted: seq<Edit>)
    requires Descending(sorted) && Apart(e, sorted)
    requires e.start < e.end && forall other :: other in sorted ==> other.start < other.end
    ensures Descending(Insert(e, sorted))
    ensures forall x :: x in Insert(e, sorted) <==> x == e || x in sorted
  {
    if sorted == [] {
    } else if e.start > sorted[0].start {
      assert sorted[0] in sorted;
    } else {
      var rest := sorted[1..];
      assert forall x :: x in sorted <==> x == sorted[0] || x in rest;
      assert Apart(e, rest) && Descending(rest);
      InsertKeeps(e, rest);
      var longer := Insert(e, rest);
      assert Insert(e, sorted) == [sorted[0]] + longer;
      forall j | 0 <= j < |longer| ensures longer[j].end <= sorted[0].start {
        assert longer[j] in longer;
        if longer[j] != e { AllBelow(sorted, longer[j]); }
      }
    }
  }

  lemma {:induction false} SortSorts(edits: seq<Edit>, n: nat)
    requires Fits(edits, n)
    ensures Descending(Sort(edits))
    ensures forall e :: e in Sort(edits) <==> e in edits
  {
    if edits == [] {
    } else {
      var rest := edits[1..];
      assert forall e :: e in edits <==> e == edits[0] || e in rest;
      SortSorts(rest, n);
      forall other | other in Sort(rest) ensures other.end <= edits[0].start || edits[0].end <= other.start {
        var j :| 0 <= j < |rest| && rest[j] == other;
        assert edits[j + 1] == other;
      }
      InsertKeeps(edits[0], Sort(rest));
    }
  }

  // ---------- Simultaneous replacement ----------

  predicate Covered(edits: seq<Edit>, i: nat) {
    exists e :: e in edits && e.start <= i < e.end
  }

  // The piece of the edit that starts at line `i`, if there is one.
  function PieceAt(edits: seq<Edit>, i: nat): seq<string> {
    if edits == [] then [] else if edits[0].start == i then edits[0].piece else PieceAt(edits[1..], i)
  }

  // What becomes of line `i`: it stays, or it gives way to the piece that starts there.
  function Becomes(lines: seq<string>, edits: seq<Edit>, i: nat): seq<string>
    requires i < |lines|
  {
    if Covered(edits, i) then PieceAt(edits, i) else [lines[i]]
  }

  // Every line is looked at once, in the original text: no edit sees the effect of another.
  function Simultaneous(lines: seq<string>, edits: seq<Edit>, from: nat): seq<string>
    requires from <= |lines|
    decreases |lines| - from
  {
    if from == |lines| then [] else Becomes(lines, edits, from) + Simultaneous(lines, edits, from + 1)
  }

  lemma {:induction false} PieceIs(edits: seq<Edit>, n: nat, e: Edit, i: nat)
    requires Fits(edits, n) && e in edits
    ensures e.start == i ==> PieceAt(edits, i) == e.piece
    ensures e.start < i < e.end ==> PieceAt(edits, i) == []
  {
    var k :| 0 <= k < |edits| && edits[k] == e;
    if edits[0] != e {
      var rest := edits[1..];
      assert rest[k - 1] == e;
      assert edits[0] in edits;
      assert edits[0].start != i || !(e.start <= i < e.end);
      forall x | x in rest ensures x in edits {}
      PieceIs(rest, n, e, i);
    } else if e.start < i < e.end {
      NothingStarts(edits, n, e, i);
    }
  }

  lemma {:induction false} NothingStarts(edits: seq<Edit>, n: nat, e: Edit, i: nat)
    requires Fits(edits, n) && edits != [] && edits[0] == e && e.start < i < e.end
    ensures PieceAt(edits, i) == []
  {
    NoStart(edits[1..], i) by {
      forall x | x in edits[1..] ensures x.start != i {
        var j :| 0 <= j < |edits[1..]| && edits[1..][j] == x;
        assert edits[j + 1] == x && x in edits;
      }
    }
  }

  lemma {:induction false} NoStart(edits: seq<Edit>, i: nat)
    requires forall x :: x in edits ==> x.start != i
    ensures PieceAt(edits, i) == []
  {
    if edits == [] {
    } else {
      NoStart(edits[1..], i);
    }
  }

  // What becomes of a line depends only on which edits there are, not on their order.
  lemma BecomesSame(lines: seq<string>, a: seq<Edit>, b: seq<Edit>, i: nat)
    requires i < |lines| && Fits(a, |lines|) && Fits(b, |lines|)
    requires forall e :: e in a && e.start <= i < e.end ==> e in b
    requires forall e :: e in b && e.start <= i < e.end ==> e in a
    ensures Becomes(lines, a, i) == Becomes(lines, b, i)
  {
    if Covered(a, i) {
      var e :| e in a && e.start <= i < e.end;
      PieceIs(a, |lines|, e, i);
      PieceIs(b, |lines|, e, i);
    }
  }

  lemma {:induction false} SimultaneousSame(lines: seq<string>, a: seq<Edit>, b: seq<Edit>, from: nat)
    requires from <= |lines| && Fits(a, |lines|) && Fits(b, |lines|)
    requires forall e :: e in a <==> e in b
    ensures Simultaneous(lines, a, from) == Simultaneous(lines, b, from)
    decreases |lines| - from
  {
    if from == |lines| {
    } else {
      assert Becomes(lines, a, from) == Becomes(lines, b, from) by { BecomesSame(lines, a, b, from); }
      SimultaneousSame(lines, a, b, from + 1);
    }
  }

  lemma {:induction false} Untouched(lines: seq<string>, edits: seq<Edit>, from: nat)
    requires from <= |lines| && forall e :: e in edits ==> e.end <= from
    ensures Simultaneous(lines, edits, from) == lines[from..]
    decreases |lines| - from
  {
    if from == |lines| {
    } else {
      Untouched(lines, edits, from + 1);
      assert lines[from..] == [lines[from]] + lines[from + 1..];
    }
  }

  lemma DescendingFits(edits: seq<Edit>, n: nat)
    requires Descending(edits) && forall e :: e in edits ==> e.start < e.end <= n
    ensures Fits(edits, n)
  {
  }

  // The highest edit: the lines it covers become its piece, and nothing above it changes.
  lemma {:induction false} TopEdit(lines: seq<string>, edits: seq<Edit>, from: nat)
    requires edits != [] && Descending(edits) && forall e :: e in edits ==> e.start < e.end <= |lines|
    requires edits[0].start <= from <= edits[0].end
    ensures Simultaneous(lines, edits, from)
         == (if from == edits[0].start then edits[0].piece else []) + lines[edits[0].end..]
    decreases |lines| - from
  {
    var top := edits[0];
    DescendingFits(edits, |lines|);
    assert top in edits;
    if from == top.end {
      forall e | e in edits ensures e.end <= from {
        if e != top {
          assert e in edits[1..];
          AllBelow(edits, e);
        }
      }
      Untouched(lines, edits, from);
      assert [] + lines[top.end..] == lines[top.end..];
    } else {
      PieceIs(edits, |lines|, top, from);
      assert Covered(edits, from);
      TopEdit(lines, edits, from + 1);
    }
  }

  lemma BelowTopEdit(lines: seq<string>, edits: seq<Edit>, i: nat)
    requires edits != [] && Descending(edits) && forall e :: e in edits ==> e.start < e.end <= |lines|
    requires i < edits[0].start
    ensures edits[0] in edits && i < |Replace(lines, edits[0])|
    ensures Becomes(Replace(lines, edits[0]), edits[1..], i) == Becomes(lines, edits, i)
  {
    var top, rest := edits[0], edits[1..];
    assert top in edits;
    forall e | e in rest ensures e in edits {}
    DescendingFits(edits, |lines|);
    DescendingFits(rest, |lines|);
    forall e | e in edits && e.start <= i < e.end ensures e in rest {
      var k :| 0 <= k < |edits| && edits[k] == e;
      assert k > 0 && rest[k - 1] == e;
    }
    BecomesSame(lines, edits, rest, i);
  }

  // Making the highest edit first leaves the others with the same work to do.
  lemma {:induction false} TopEditFirst(lines: seq<string>, edits: seq<Edit>, from: nat)
    requires edits != [] && Descending(edits) && forall e :: e in edits ==> e.start < e.end <= |lines|
    requires from <= edits[0].start
    ensures edits[0] in edits && from <= |Replace(lines, edits[0])|
    ensures Simultaneous(lines, edits, from) == Simultaneous(Replace(lines, edits[0]), edits[1..], from)
    decreases edits[0].start - from
  {
    var top, rest := edits[0], edits[1..];
    assert top in edits;
    var after := Replace(lines, top);
    if from == top.start {
      forall e | e in rest ensures e.end <= top.start { AllBelow(edits, e); }
      TopEdit(lines, edits, from);
      Untouched(after, rest, from);
      assert after[from..] == top.piece + lines[top.end..];
    } else {
      TopEditFirst(lines, edits, from + 1);
      BelowTopEdit(lines, edits, from);
    }
  }

  // Splicing bottom-up is simultaneous replacement.
  lemma {:induction false} SpliceIsSimultaneous(lines: seq<string>, edits: seq<Edit>)
    requires Descending(edits) && forall e :: e in edits ==> e.start < e.end <= |lines|
    ensures Splice(lines, edits) == Simultaneous(lines, edits, 0)
    decreases |edits|
  {
    if edits == [] {
      Untouched(lines, edits, 0);
    } else {
      assert edits[0] in edits;
      forall e | e in edits[1..] ensures e in edits && e.end <= edits[0].start { AllBelow(edits, e); }
      TopEditFirst(lines, edits, 0);
      SpliceIsSimultaneous(Replace(lines, edits[0]), edits[1..]);
    }
  }

  // For disjoint ranges, given in any order, the routines replace all ranges of the original text at once.
  lemma BottomUpIsSimultaneous(lines: seq<string>, edits: seq<Edit>)
    requires Fits(edits, |lines|)
    ensures Descending(Sort(edits)) && forall e :: e in Sort(edits) ==> e.start < e.end <= |lines|
    ensures Splice(lines, Sort(edits)) == Simultaneous(lines, edits, 0)
  {
    SortSorts(edits, |lines|);
    SpliceIsSimultaneous(lines, Sort(edits));
    DescendingFits(Sort(edits), |lines|);
    SimultaneousSame(lines, Sort(edits), edits, 0);
  }

  // ---------- The two routines ----------

  // A function to replace: its line range, and the text of the new function.
  datatype Replacement = Replacement(start: nat, end: nat, text: string)

  function NewText(r: Replacement): string {
    StripRight(r.text) + "\n"
  }

  // _merge_file_bundle_function_repair puts the new text in as a single list element.
  function AsOne(rs: seq<Replacement>): seq<Edit> {
    if rs == [] then [] else [Edit(rs[0].start, rs[0].end, [NewText(rs[0])])] + AsOne(rs[1..])
  }

  // _replace_top_level_functions puts it in line by line.
  function AsLines(rs: seq<Replacement>): seq<Edit> {
    if rs == [] then [] else [Edit(rs[0].start, rs[0].end, SplitLines(NewText(rs[0])))] + AsLines(rs[1..])
  }

  ghost predicate RangesFit(rs: seq<Replacement>, n: nat) {
    && (forall r :: r in rs ==> r.start < r.end <= n)
    && (forall i, j :: 0 <= i < |rs| && 0 <= j < |rs| && i != j ==> rs[i].end <= rs[j].start || rs[j].end <= rs[i].start)
  }

  lemma {:induction false} EditsOf(rs: seq<Replacement>)
    ensures |AsOne(rs)| == |AsLines(rs)| == |rs|
    ensures forall i :: 0 <= i < |rs| ==>
              && AsOne(rs)[i] == Edit(rs[i].start, rs[i].end, [NewText(rs[i])])
              && AsLines(rs)[i] == Edit(rs[i].start, rs[i].end, SplitLines(NewText(rs[i])))
  {
    if rs == [] {
    } else {
      EditsOf(rs[1..]);
    }
  }

  lemma EditsFit(rs: seq<Replacement>, n: nat)
    requires RangesFit(rs, n)
    ensures Fits(AsOne(rs), n) && Fits(AsLines(rs), n)
  {
    EditsOf(rs);
    forall i | 0 <= i < |rs| ensures rs[i] in rs {}
  }

  function MergeFunctions(source: string, rs: seq<Replacement>): string
    requires RangesFit(rs, |SplitLines(source)|)
  {
    EditsFit(rs, |SplitLines(source)|);
    BottomUpIsSimultaneous(SplitLines(source), AsOne(rs));
    Concat(Splice(SplitLines(source), Sort(AsOne(rs))))
  }

  function ReplaceFunctions(source: string, rs: seq<Replacement>): string
    requires RangesFit(rs, |SplitLines(source)|)
  {
    EditsFit(rs, |SplitLines(source)|);
    BottomUpIsSimultaneous(SplitLines(source), AsLines(rs));
    Concat(Splice(SplitLines(source), Sort(AsLines(rs))))
  }

  method MergeFileBundle(source: string, rs: seq<Replacement>) returns (merged: string)
    requires RangesFit(rs, |SplitLines(source)|)
    ensures merged == MergeFunctions(source, rs)
  {
    var lines := SplitLines(source);
    EditsFit(rs, |lines|);
    BottomUpIsSimultaneous(lines, AsOne(rs));
    lines := SpliceInPlace(lines, Sort(AsOne(rs)));
    merged := Concat(lines);
  }

  method ReplaceTopLevel(source: string, rs: seq<Replacement>) returns (replaced: string)
    requires RangesFit(rs, |SplitLines(source)|)
    ensures replaced == ReplaceFunctions(source, rs)
  {
    var lines := SplitLines(source);
    EditsFit(rs, |lines|);
    BottomUpIsSimultaneous(lines, AsLines(rs));
    lines := SpliceInPlace(lines, Sort(AsLines(rs)));
    replaced := Concat(lines);
  }

  lemma CoveredBy(rs: seq<Replacement>, i: nat)
    ensures Covered(AsOne(rs), i) <==> exists k :: 0 <= k < |rs| && rs[k].start <= i < rs[k].end
    ensures Covered(AsLines(rs), i) <==> exists k :: 0 <= k < |rs| && rs[k].start <= i < rs[k].end
  {
    EditsOf(rs);
    forall k | 0 <= k < |rs| ensures AsOne(rs)[k] in AsOne(rs) && AsLines(rs)[k] in AsLines(rs) {}
  }

  lemma SameTextAt(lines: seq<string>, rs: seq<Replacement>, i: nat)
    requires i < |lines| && RangesFit(rs, |lines|)
    ensures Concat(Becomes(lines, AsOne(rs), i)) == Concat(Becomes(lines, AsLines(rs), i))
  {
    CoveredBy(rs, i);
    if Covered(AsOne(rs), i) {
      var k :| 0 <= k < |rs| && rs[k].start <= i < rs[k].end;
      SamePieceText(rs, |lines|, k, i);
    }
  }

  lemma SamePieceText(rs: seq<Replacement>, n: nat, k: nat, i: nat)
    requires RangesFit(rs, n) && k < |rs| && rs[k].start <= i < rs[k].end
    ensures Concat(PieceAt(AsOne(rs), i)) == Concat(PieceAt(AsLines(rs), i))
  {
    var text := NewText(rs[k]);
    EditsOf(rs);
    EditsFit(rs, n);
    PieceIs(AsOne(rs), n, AsOne(rs)[k], i);
    PieceIs(AsLines(rs), n, AsLines(rs)[k], i);
    SplitThenConcat(text);
    assert Concat([text]) == text + Concat([text][1..]) == text;
  }

  lemma ConcatFirst(lines: seq<string>, edits: seq<Edit>, from: nat)
    requires from < |lines|
    ensures Concat(Simultaneous(lines, edits, from))
         == Concat(Becomes(lines, edits, from)) + Concat(Simultaneous(lines, edits, from + 1))
  {
    ConcatOver(Becomes(lines, edits, from), Simultaneous(lines, edits, from + 1));
  }

  lemma {:induction false} SameText(lines: seq<string>, a: seq<Edit>, b: seq<Edit>, from: nat)
    requires from <= |lines|
    requires forall i :: from <= i < |lines| ==> Concat(Becomes(lines, a, i)) == Concat(Becomes(lines, b, i))
    ensures Concat(Simultaneous(lines, a, from)) == Concat(Simultaneous(lines, b, from))
    decreases |lines| - from
  {
    if from == |lines| {
    } else {
      SameText(lines, a, b, from + 1);
      ConcatFirst(lines, a, from);
      ConcatFirst(lines, b, from);
    }
  }

  // The two routines write the same text for the same replacements, in whatever order each gets them.
  lemma RoutinesAgree(source: string, rs: seq<Replacement>, other: seq<Replacement>)
    requires RangesFit(rs, |SplitLines(source)|) && RangesFit(other, |SplitLines(source)|)
    requires forall r :: r in rs <==> r in other
    ensures MergeFunctions(source, rs) == ReplaceFunctions(source, other)
  {
    var lines := SplitLines(source);
    EditsFit(rs, |lines|);
    EditsFit(other, |lines|);
    BottomUpIsSimultaneous(lines, AsOne(rs));
    BottomUpIsSimultaneous(lines, AsLines(other));
    forall i | 0 <= i < |lines|
      ensures Concat(Becomes(lines, AsOne(rs), i)) == Concat(Becomes(lines, AsLines(rs), i))
    {
      SameTextAt(lines, rs, i);
    }
    SameText(lines, AsOne(rs), AsLines(rs), 0);
    SameEdits(rs, other);
    SimultaneousSame(lines, AsLines(rs), AsLines(other), 0);
  }

  lemma SameEdits(rs: seq<Replacement>, other: seq<Replacement>)
    requires forall r :: r in rs <==> r in other
    ensures forall e :: e in AsLines(rs) <==> e in AsLines(other)
  {
    EditsOf(rs);
    EditsOf(other);
    forall e ensures e in AsLines(rs) <==> e in AsLines(other) {
      if e in AsLines(rs) {
        var k :| 0 <= k < |rs| && AsLines(rs)[k] == e;
        assert rs[k] in other;
        var j :| 0 <= j < |other| && other[j] == rs[k];
        assert AsLines(other)[j] == e;
      }
      if e in AsLines(other) {
        var k :| 0 <= k < |other| && AsLines(other)[k] == e;
        assert other[k] in rs;
        var j :| 0 <= j < |rs| && rs[j] == other[k];
        assert AsLines(rs)[j] == e;
      }
    }
  }
}
