/** Repair of a task_identifier at line level: removing a key with the whole span of its
    value (removeFrontmatterKey, markValueSpan) from a block mapping, and the last-wins
    view of duplicate keys (DeduplicateFrontmatter). */
module IdentifierRepair {
  import opened Records

  // ---------------------------------------------------------------- lines

  predicate IsIndent(c: char) { c == ' ' || c == '\t' }

  function TrimCr(line: string): string {
    if line != "" && line[|line| - 1] == '\r' then TrimCr(line[..|line| - 1]) else line
  }

  /** leadingWhitespaceLen */
  function Indent(line: string): nat {
    if line != "" && IsIndent(line[0]) then 1 + Indent(line[1..]) else 0
  }

  predicate Blank(line: string) {
    forall i :: 0 <= i < |TrimCr(line)| ==> IsIndent(TrimCr(line)[i])
  }

  /** Line `j` belongs to the value of the key on line `i`: some non-blank line at or
      after it, and every non-blank line from the key up to that one, is indented
      deeper than the key. */
  predicate SpanUpTo(lines: seq<string>, i: nat, m: nat) {
    i < m < |lines| && !Blank(lines[m])
    && forall t :: i < t <= m && !Blank(lines[t]) ==> Indent(TrimCr(lines[t])) > Indent(lines[i])
  }

  predicate InSpan(lines: seq<string>, i: nat, closing: nat, j: nat) {
    i < j < closing <= |lines| && exists m :: j <= m < closing && SpanUpTo(lines, i, m)
  }

  /** markValueSpan: marks the lines of the value in `remove`; blank lines stay pending
      until a deeper line shows that the value goes on. */
  method MarkValueSpan(lines: seq<string>, i: nat, closing: nat, remove: array<bool>)
    requires i < closing <= |lines| && remove.Length == |lines|
    modifies remove
    ensures forall j :: 0 <= j < |lines| ==> (remove[j] <==> old(remove[j]) || InSpan(lines, i, closing, j))
  {
    hide Blank;
    var indent := Indent(lines[i]);
    var pending: seq<nat> := [];
    var last := i;
    var j := i + 1;
    while j < closing
      invariant i < j <= closing && i <= last < j
      invariant last == i || SpanUpTo(lines, i, last)
      invariant forall t :: last < t < j ==> Blank(lines[t])
      invariant pending == seq(j - last - 1, n requires 0 <= n < j - last - 1 => last + 1 + n)
      invariant forall t :: 0 <= t < |lines| ==> (remove[t] <==> old(remove[t]) || i < t <= last)
    {
      if Blank(lines[j]) {
        pending := pending + [j];
      } else if Indent(TrimCr(lines[j])) <= indent {
        SpanStops(lines, i, closing, last, j);
        return;
      } else {
        for n := 0 to |pending|
          invariant forall t :: 0 <= t < |lines| ==> (remove[t] <==> old(remove[t]) || i < t <= last + n)
        {
          remove[pending[n]] := true;
        }
        pending := [];
        remove[j] := true;
        last := j;
      }
      j := j + 1;
    }
    SpanStops(lines, i, closing, last, closing);
  }

  /** The span is what lies up to the last marked line. */
  lemma SpanStops(lines: seq<string>, i: nat, closing: nat, last: nat, stop: nat)
    requires i <= last < stop <= closing <= |lines|
    requires last == i || SpanUpTo(lines, i, last)
    requires forall t :: last < t < stop ==> Blank(lines[t])
    requires stop < closing ==> !Blank(lines[stop]) && Indent(TrimCr(lines[stop])) <= Indent(lines[i])
    ensures forall j :: 0 <= j < |lines| ==> (InSpan(lines, i, closing, j) <==> i < j <= last)
  {
    hide Blank;
    assert forall m :: last < m < closing ==> !SpanUpTo(lines, i, m);
    forall j: nat | i < j <= last ensures InSpan(lines, i, closing, j) {
      assert SpanUpTo(lines, i, last);
    }
  }

  /** The lines that removing the keys on `keys` takes away. */
  predicate Gone(lines: seq<string>, closing: nat, keys: seq<nat>, j: nat) {
    j in keys || exists i :: i in keys && InSpan(lines, i, closing, j)
  }

  function GoneLines(lines: seq<string>, closing: nat, keys: seq<nat>): set<nat> {
    set j: nat | j < |lines| && Gone(lines, closing, keys, j)
  }

  /** The lines of `ls`, the first of which has number `at`, that are not in `gone`. */
  function Keep(ls: seq<string>, at: nat, gone: set<nat>): seq<string> {
    if ls == [] then []
    else if at in gone then Keep(ls[1..], at + 1, gone)
    else [ls[0]] + Keep(ls[1..], at + 1, gone)
  }

  /** removeFrontmatterKey, given the lines the YAML parser found the key on. */
  method RemoveKeyLines(lines: seq<string>, closing: nat, keys: seq<nat>) returns (out: seq<string>)
    requires closing <= |lines| && forall k :: k in keys ==> k < closing
    ensures out == Keep(lines, 0, GoneLines(lines, closing, keys))
  {
    var remove := MarkGone(lines, closing, keys);
    ghost var gone := GoneLines(lines, closing, keys);
    assert forall j :: 0 <= j < |lines| ==> (remove[j] <==> j in gone);
    hide Gone, GoneLines;
    out := [];
    assert lines[0..] == lines;
    for n := 0 to |lines|
      invariant out + Keep(lines[n..], n, gone) == Keep(lines, 0, gone)
    {
      assert lines[n..][0] == lines[n] && lines[n..][1..] == lines[n + 1..];
      if !remove[n] {
        out := out + [lines[n]];
      }
    }
  }

  method MarkGone(lines: seq<string>, closing: nat, keys: seq<nat>) returns (remove: array<bool>)
    requires closing <= |lines| && forall k :: k in keys ==> k < closing
    ensures remove.Length == |lines|
    ensures forall j :: 0 <= j < |lines| ==> (remove[j] <==> Gone(lines, closing, keys, j))
  {
    hide InSpan;
    remove := new bool[|lines|](_ => false);
    for n := 0 to |keys|
      invariant forall j :: 0 <= j < |lines| ==> (remove[j] <==> Gone(lines, closing, keys[..n], j))
    {
      hide Gone;
      assert keys[n] in keys;
      remove[keys[n]] := true;
      MarkValueSpan(lines, keys[n], closing, remove);
      forall j | 0 <= j < |lines| ensures remove[j] <==> Gone(lines, closing, keys[..n + 1], j) {
        GoneOneMore(lines, closing, keys, n, j);
      }
    }
    assert keys[..|keys|] == keys;
  }

  lemma GoneOneMore(lines: seq<string>, closing: nat, keys: seq<nat>, n: nat, j: nat)
    requires n < |keys|
    ensures Gone(lines, closing, keys[..n + 1], j)
       <==> (Gone(lines, closing, keys[..n], j) || j == keys[n] || InSpan(lines, keys[n], closing, j))
  {
    hide InSpan;
    assert keys[..n + 1] == keys[..n] + [keys[n]];
    assert forall i :: i in keys[..n + 1] <==> (i in keys[..n] || i == keys[n]);
    assert keys[n] in keys[..n + 1];
  }

  // ---------------------------------------------------------------- block mappings

  /** What stands between two keys: blank lines, then lines (comments) the first of which
      is not indented deeper than a key. */
  datatype Gap = Gap(blanks: seq<string>, comments: seq<string>)

  /** One key of a block mapping: its line, the lines of its value, and the gap behind. */
  datatype Entry = Entry(key: string, line: string, value: seq<string>, gap: Gap)

  datatype Block = Block(lead: Gap, entries: seq<Entry>)

  function GapLines(g: Gap): seq<string> { g.blanks + g.comments }

  function LinesOf(e: Entry): seq<string> { [e.line] + e.value + GapLines(e.gap) }

  function Flat(es: seq<Entry>): seq<string> {
    if es == [] then [] else LinesOf(es[0]) + Flat(es[1..])
  }

  function BlockLines(b: Block): seq<string> { GapLines(b.lead) + Flat(b.entries) }

  predicate GapOk(g: Gap, indent: nat) {
    && (forall l :: l in g.blanks ==> Blank(l))
    && (g.comments != [] ==> !Blank(g.comments[0]) && Indent(TrimCr(g.comments[0])) <= indent)
  }

  predicate IsHead(line: string, indent: nat) {
    !Blank(line) && Indent(line) == indent && Indent(TrimCr(line)) == indent
  }

  /** The value is indented deeper than its key and ends in a non-blank line. */
  predicate EntryOk(e: Entry, indent: nat) {
    && IsHead(e.line, indent)
    && (forall l :: l in e.value ==> Blank(l) || Indent(TrimCr(l)) > indent)
    && (e.value != [] ==> !Blank(e.value[|e.value| - 1]))
    && GapOk(e.gap, indent)
  }

  predicate EntriesOk(es: seq<Entry>, indent: nat) { forall e :: e in es ==> EntryOk(e, indent) }

  predicate BlockOk(b: Block, indent: nat) { GapOk(b.lead, indent) && EntriesOk(b.entries, indent) }

  /** The lines on which `wanted` stands, the first entry starting at line `at`: what
      frontmatterKeyLines reads off the parsed node. */
  function KeyLines(es: seq<Entry>, at: nat, wanted: string): seq<nat> {
    if es == [] then []
    else (if es[0].key == wanted then [at] else []) + KeyLines(es[1..], at + |LinesOf(es[0])|, wanted)
  }

  function JoinGaps(g: Gap, h: Gap): Gap {
    if g.comments == [] then Gap(g.blanks + h.blanks, h.comments)
    else Gap(g.blanks, g.comments + h.blanks + h.comments)
  }

  /** The mapping without the key: the gap behind a removed entry joins the one before. */
  function Drop(b: Block, wanted: string): Block
    decreases |b.entries|
  {
    if b.entries == [] then b
    else
      var e, rest := b.entries[0], b.entries[1..];
      if e.key == wanted then Drop(Block(JoinGaps(b.lead, e.gap), rest), wanted)
      else
        var r := Drop(Block(e.gap, rest), wanted);
        Block(b.lead, [e.(gap := r.lead)] + r.entries)
  }

  // ---------------------------------------------------------------- spans in a mapping

  /** An entry on lines `at..` of a file whose keys to remove are heads of entries. */
  predicate Placed(lines: seq<string>, closing: nat, indent: nat, keys: seq<nat>, at: nat, e: Entry) {
    var next := at + |LinesOf(e)|;
    && next <= closing <= |lines| && lines[at..next] == LinesOf(e) && EntryOk(e, indent)
    && (next == closing || IsHead(lines[next], indent))
    && (forall k :: k in keys ==> k < closing && IsHead(lines[k], indent) && (k <= at || k >= next))
  }

  /** No line of an entry is claimed by another key's value. */
  lemma OtherSpansEnd(lines: seq<string>, closing: nat, indent: nat, keys: seq<nat>, at: nat, e: Entry, i: nat, j: nat)
    requires Placed(lines, closing, indent, keys, at, e) && i in keys && i != at
    requires at <= j < at + |LinesOf(e)|
    ensures !InSpan(lines, i, closing, j) && i != j
  {
    hide Blank;
    assert lines[at] == LinesOf(e)[0];
    assert i < at ==> forall m :: j <= m < closing ==> !SpanUpTo(lines, i, m);
  }

  /** Of its own lines, a key claims exactly those of its value. */
  lemma OwnSpan(lines: seq<string>, closing: nat, indent: nat, keys: seq<nat>, at: nat, e: Entry)
    requires Placed(lines, closing, indent, keys, at, e)
    ensures forall j :: 0 <= j < |lines| ==> (InSpan(lines, at, closing, j) <==> at < j <= at + |e.value|)
  {
    hide Blank, InSpan;
    var next, last := at + |LinesOf(e)|, at + |e.value|;
    var stop := last + 1 + |e.gap.blanks|;
    assert forall t :: at <= t < next ==> lines[t] == LinesOf(e)[t - at];
    assert forall t :: at < t <= last ==> lines[t] == e.value[t - at - 1];
    assert forall t :: last < t < stop ==> lines[t] == e.gap.blanks[t - last - 1];
    assert stop < next ==> lines[stop] == e.gap.comments[0];
    SpanStops(lines, at, closing, last, stop);
  }

  /** What removal takes from an entry: the key line and the value, if it is named. */
  lemma GoneInEntry(lines: seq<string>, closing: nat, indent: nat, keys: seq<nat>, at: nat, e: Entry, j: nat)
    requires Placed(lines, closing, indent, keys, at, e)
    requires at <= j < at + |LinesOf(e)|
    ensures Gone(lines, closing, keys, j) <==> at in keys && j <= at + |e.value|
  {
    hide InSpan, Blank, Placed;
    forall i | i in keys && i != at ensures !InSpan(lines, i, closing, j) && j != i {
      OtherSpansEnd(lines, closing, indent, keys, at, e, i, j);
    }
    assert j < |lines| by { PlacedInside(lines, closing, indent, keys, at, e); }
    OwnSpan(lines, closing, indent, keys, at, e);
  }

  lemma PlacedInside(lines: seq<string>, closing: nat, indent: nat, keys: seq<nat>, at: nat, e: Entry)
    requires Placed(lines, closing, indent, keys, at, e)
    ensures at + |LinesOf(e)| <= |lines|
  {
  }

  // ---------------------------------------------------------------- removal

  lemma {:induction false} KeepConcat(a: seq<string>, b: seq<string>, at: nat, gone: set<nat>)
    ensures Keep(a + b, at, gone) == Keep(a, at, gone) + Keep(b, at + |a|, gone)
  {
    if a == [] {
      assert a + b == b;
    } else {
      assert (a + b)[1..] == a[1..] + b;
      KeepConcat(a[1..], b, at + 1, gone);
    }
  }

  lemma {:induction false} KeepAll(a: seq<string>, at: nat, gone: set<nat>)
    requires forall j :: at <= j < at + |a| ==> j !in gone
    ensures Keep(a, at, gone) == a
  {
    if a != [] {
      KeepAll(a[1..], at + 1, gone);
    }
  }

  lemma {:induction false} KeepNone(a: seq<string>, at: nat, gone: set<nat>)
    requires forall j :: at <= j < at + |a| ==> j in gone
    ensures Keep(a, at, gone) == []
  {
    if a != [] {
      KeepNone(a[1..], at + 1, gone);
    }
  }

  lemma KeepEntry(lines: seq<string>, closing: nat, indent: nat, keys: seq<nat>, at: nat, e: Entry)
    requires Placed(lines, closing, indent, keys, at, e)
    ensures Keep(LinesOf(e), at, GoneLines(lines, closing, keys)) == if at in keys then GapLines(e.gap) else LinesOf(e)
  {
    hide Gone, Placed, Keep;
    var gone := GoneLines(lines, closing, keys);
    PlacedInside(lines, closing, indent, keys, at, e);
    forall j | at <= j < at + |LinesOf(e)| ensures j in gone <==> at in keys && j <= at + |e.value| {
      GoneInEntry(lines, closing, indent, keys, at, e, j);
    }
    if at in keys {
      var own := [e.line] + e.value;
      KeepConcat(own, GapLines(e.gap), at, gone);
      KeepNone(own, at, gone);
      KeepAll(GapLines(e.gap), at + |own|, gone);
    } else {
      KeepAll(LinesOf(e), at, gone);
    }
  }

  /** The lines left of the entries. */
  function Without(es: seq<Entry>, wanted: string): seq<string> {
    if es == [] then []
    else (if es[0].key == wanted then GapLines(es[0].gap) else LinesOf(es[0])) + Without(es[1..], wanted)
  }

  lemma {:induction false} KeyLinesInside(es: seq<Entry>, at: nat, wanted: string)
    ensures forall k :: k in KeyLines(es, at, wanted) ==> at <= k < at + |Flat(es)|
    decreases es
  {
    if es != [] {
      KeyLinesInside(es[1..], at + |LinesOf(es[0])|, wanted);
    }
  }

  /** The keys are the wanted ones of the entries from line `at` on, and earlier heads. */
  predicate KeysFrom(lines: seq<string>, closing: nat, indent: nat, keys: seq<nat>, at: nat, es: seq<Entry>, wanted: string) {
    && at + |Flat(es)| == closing <= |lines| && lines[at..closing] == Flat(es) && EntriesOk(es, indent)
    && (forall k :: k in keys ==> k < closing && IsHead(lines[k], indent) && (k < at || k in KeyLines(es, at, wanted)))
    && (forall k :: k in KeyLines(es, at, wanted) ==> k in keys)
  }

  lemma KeysFromStep(lines: seq<string>, closing: nat, indent: nat, keys: seq<nat>, at: nat, es: seq<Entry>, wanted: string)
    requires KeysFrom(lines, closing, indent, keys, at, es, wanted) && es != []
    ensures KeysFrom(lines, closing, indent, keys, at + |LinesOf(es[0])|, es[1..], wanted)
    ensures Placed(lines, closing, indent, keys, at, es[0])
    ensures at in keys <==> es[0].key == wanted
  {
    hide IsHead, GapOk, LinesOf, KeyLines, Flat;
    var e, rest := es[0], es[1..];
    var next := at + |LinesOf(e)|;
    FlatStep(es);
    SliceSplit(lines, at, closing, LinesOf(e), Flat(rest));
    assert EntriesOk(rest, indent) && EntryOk(e, indent);
    KeyLinesInside(rest, next, wanted);
    KeyLinesStep(es, at, wanted);
    NothingFlat();
    if rest != [] {
      FlatStep(rest);
      assert lines[next] == lines[next..closing][0];
      assert rest[0] in es && EntryOk(rest[0], indent);
    }
  }

  lemma NothingFlat()
    ensures Flat([]) == []
  {
  }

  lemma FlatStep(es: seq<Entry>)
    requires es != []
    ensures Flat(es) == LinesOf(es[0]) + Flat(es[1..]) && |LinesOf(es[0])| > 0
    ensures Flat(es)[0] == LinesOf(es[0])[0] == es[0].line
  {
  }

  lemma KeyLinesStep(es: seq<Entry>, at: nat, wanted: string)
    requires es != []
    ensures KeyLines(es, at, wanted)
         == (if es[0].key == wanted then [at] else []) + KeyLines(es[1..], at + |LinesOf(es[0])|, wanted)
  {
  }

  lemma SliceSplit(lines: seq<string>, at: nat, closing: nat, a: seq<string>, b: seq<string>)
    requires at <= closing <= |lines| && lines[at..closing] == a + b
    ensures at + |a| + |b| == closing && lines[at..at + |a|] == a && lines[at + |a|..closing] == b
  {
    assert lines[at..at + |a|] == lines[at..closing][..|a|];
    assert lines[at + |a|..closing] == lines[at..closing][|a|..];
  }

  lemma {:induction false} KeepEntries(lines: seq<string>, closing: nat, indent: nat, keys: seq<nat>, at: nat, es: seq<Entry>, wanted: string)
    requires KeysFrom(lines, closing, indent, keys, at, es, wanted)
    ensures Keep(Flat(es), at, GoneLines(lines, closing, keys)) == Without(es, wanted)
    decreases |es|
  {
    hide KeysFrom, Placed, GoneLines, LinesOf, Keep;
    var gone := GoneLines(lines, closing, keys);
    assert Keep([], at, gone) == [] by { KeepAll([], at, gone); }
    if es != [] {
      KeysFromStep(lines, closing, indent, keys, at, es, wanted);
      KeepConcat(LinesOf(es[0]), Flat(es[1..]), at, gone);
      KeepEntry(lines, closing, indent, keys, at, es[0]);
      KeepEntries(lines, closing, indent, keys, at + |LinesOf(es[0])|, es[1..], wanted);
    }
  }

  lemma {:induction false} DropLines(b: Block, wanted: string)
    ensures BlockLines(Drop(b, wanted)) == GapLines(b.lead) + Without(b.entries, wanted)
    decreases |b.entries|
  {
    hide Flat, GapLines, BlockLines, LinesOf, JoinGaps;
    if b.entries == [] {
      NoLines(b.lead);
    } else {
      var e, rest := b.entries[0], b.entries[1..];
      if e.key == wanted {
        DropLines(Block(JoinGaps(b.lead, e.gap), rest), wanted);
        JoinedGapLines(b.lead, e.gap);
        assert GapLines(b.lead) + GapLines(e.gap) + Without(rest, wanted)
            == GapLines(b.lead) + (GapLines(e.gap) + Without(rest, wanted));
      } else {
        DropLines(Block(e.gap, rest), wanted);
        DropLinesKept(b.lead, e, Drop(Block(e.gap, rest), wanted), Without(rest, wanted));
      }
    }
  }

  lemma NoLines(lead: Gap)
    ensures BlockLines(Block(lead, [])) == GapLines(lead) + []
  {
  }

  lemma JoinedGapLines(g: Gap, h: Gap)
    ensures GapLines(JoinGaps(g, h)) == GapLines(g) + GapLines(h)
  {
  }

  lemma DropLinesKept(lead: Gap, e: Entry, r: Block, rest: seq<string>)
    requires BlockLines(r) == GapLines(e.gap) + rest
    ensures BlockLines(Block(lead, [e.(gap := r.lead)] + r.entries)) == GapLines(lead) + (LinesOf(e) + rest)
  {
    hide Flat;
    var es := [e.(gap := r.lead)] + r.entries;
    FlatStep(es);
    assert es[1..] == r.entries;
    assert Flat(es) == [e.line] + e.value + BlockLines(r);
    assert LinesOf(e) + rest == [e.line] + e.value + (GapLines(e.gap) + rest);
  }

  /** Every wanted key line is the head of an entry. */
  lemma {:induction false} KeyLinesAreHeads(lines: seq<string>, at: nat, closing: nat, es: seq<Entry>, indent: nat, wanted: string)
    requires at + |Flat(es)| == closing <= |lines| && lines[at..closing] == Flat(es) && EntriesOk(es, indent)
    ensures forall k :: k in KeyLines(es, at, wanted) ==> k < closing && IsHead(lines[k], indent)
    decreases |es|
  {
    hide IsHead, GapOk, LinesOf, Flat, EntryOk, EntriesOk;
    if es != [] {
      var next := at + |LinesOf(es[0])|;
      FirstHead(lines, at, closing, es, indent);
      KeyLinesAreHeads(lines, next, closing, es[1..], indent, wanted);
      KeyLinesStep(es, at, wanted);
      hide KeyLines;
    }
  }

  /** Entries in a file begin with a head and go on with the other entries. */
  lemma FirstHead(lines: seq<string>, at: nat, closing: nat, es: seq<Entry>, indent: nat)
    requires at + |Flat(es)| == closing <= |lines| && lines[at..closing] == Flat(es) && EntriesOk(es, indent) && es != []
    ensures at < closing && IsHead(lines[at], indent) && EntriesOk(es[1..], indent)
    ensures at + |LinesOf(es[0])| + |Flat(es[1..])| == closing && lines[at + |LinesOf(es[0])|..closing] == Flat(es[1..])
  {
    hide IsHead, GapOk, LinesOf, Flat;
    FlatStep(es);
    SliceSplit(lines, at, closing, LinesOf(es[0]), Flat(es[1..]));
    assert lines[at] == lines[at..closing][0];
    assert EntryOk(es[0], indent);
  }

  /** The file: opening delimiter, mapping, closing delimiter, body. */
  function File(open: string, b: Block, close: string, body: seq<string>): seq<string> {
    [open] + BlockLines(b) + [close] + body
  }

  function Closing(b: Block): nat { 1 + |BlockLines(b)| }

  function KeysIn(b: Block, wanted: string): seq<nat> { KeyLines(b.entries, 1 + |GapLines(b.lead)|, wanted) }

  lemma BlockKeys(open: string, b: Block, close: string, body: seq<string>, indent: nat, wanted: string)
    requires BlockOk(b, indent)
    ensures KeysFrom(File(open, b, close, body), Closing(b), indent, KeysIn(b, wanted), 1 + |GapLines(b.lead)|, b.entries, wanted)
  {
    hide IsHead, GapOk;
    var lines, at := File(open, b, close, body), 1 + |GapLines(b.lead)|;
    assert lines[at..Closing(b)] == Flat(b.entries);
    KeyLinesAreHeads(lines, at, Closing(b), b.entries, indent, wanted);
  }

  lemma GoneInside(open: string, b: Block, close: string, body: seq<string>, wanted: string)
    ensures forall j :: j in GoneLines(File(open, b, close, body), Closing(b), KeysIn(b, wanted))
              ==> 1 + |GapLines(b.lead)| <= j < Closing(b)
  {
    hide KeyLines, Flat;
    KeyLinesInside(b.entries, 1 + |GapLines(b.lead)|, wanted);
  }

  /** Removing a key from a block mapping leaves exactly the mapping without it: every
      other key with its value and the lines between keys stay, in order, and so does
      everything from the closing delimiter on. */
  lemma RemovalIsExact(open: string, b: Block, close: string, body: seq<string>, indent: nat, wanted: string)
    requires BlockOk(b, indent)
    ensures Keep(File(open, b, close, body), 0, GoneLines(File(open, b, close, body), Closing(b), KeysIn(b, wanted)))
         == File(open, Drop(b, wanted), close, body)
  {
    hide *;
    var lines, closing, keys := File(open, b, close, body), Closing(b), KeysIn(b, wanted);
    var top := [open] + GapLines(b.lead);
    var gone := GoneLines(lines, closing, keys);
    FileParts(open, b, close, body, wanted);
    GoneInside(open, b, close, body, wanted);
    KeepBetween(top, Flat(b.entries), [close] + body, gone);
    BlockKeys(open, b, close, body, indent, wanted);
    KeepEntries(lines, closing, indent, keys, |top|, b.entries, wanted);
  }

  lemma KeepBetween(top: seq<string>, flat: seq<string>, tail: seq<string>, gone: set<nat>)
    requires forall j :: j in gone ==> |top| <= j < |top| + |flat|
    ensures Keep(top + (flat + tail), 0, gone) == top + (Keep(flat, |top|, gone) + tail)
  {
    hide Keep;
    KeepConcat(top, flat + tail, 0, gone);
    KeepConcat(flat, tail, |top|, gone);
    KeepAll(top, 0, gone);
    KeepAll(tail, |top| + |flat|, gone);
  }

  lemma FileParts(open: string, b: Block, close: string, body: seq<string>, wanted: string)
    ensures File(open, b, close, body) == [open] + GapLines(b.lead) + (Flat(b.entries) + ([close] + body))
    ensures File(open, Drop(b, wanted), close, body)
         == [open] + GapLines(b.lead) + (Without(b.entries, wanted) + ([close] + body))
    ensures KeysIn(b, wanted) == KeyLines(b.entries, |[open] + GapLines(b.lead)|, wanted)
    ensures Closing(b) == |[open] + GapLines(b.lead)| + |Flat(b.entries)|
  {
    hide Drop, Without, Flat, KeyLines;
    DropLines(b, wanted);
  }

  // ---------------------------------------------------------------- the last-wins view

  datatype Node<V> = Node(key: string, value: V)

  /** The last value of a key, as reading duplicate keys with the last one winning does. */
  function LastValue<V>(nodes: seq<Node<V>>, key: string): Option<V> {
    if nodes == [] then None
    else if nodes[|nodes| - 1].key == key then Some(nodes[|nodes| - 1].value)
    else LastValue(nodes[..|nodes| - 1], key)
  }

  /** The keys in the order they are first met. */
  function FirstSeen<V>(nodes: seq<Node<V>>): seq<string> {
    if nodes == [] then []
    else
      var keys, key := FirstSeen(nodes[..|nodes| - 1]), nodes[|nodes| - 1].key;
      if key in keys then keys else keys + [key]
  }

  predicate DistinctKeys<V>(nodes: seq<Node<V>>) {
    forall i, j :: 0 <= i < j < |nodes| ==> nodes[i].key != nodes[j].key
  }

  function Keys<V>(nodes: seq<Node<V>>): (ks: seq<string>)
    ensures |ks| == |nodes| && forall i :: 0 <= i < |ks| ==> ks[i] == nodes[i].key
  {
    if nodes == [] then [] else Keys(nodes[..|nodes| - 1]) + [nodes[|nodes| - 1].key]
  }

  /** `out` says about every key what `nodes` says last, once, in first-seen order. */
  ghost predicate Deduplicates<V(!new)>(out: seq<Node<V>>, nodes: seq<Node<V>>) {
    && Keys(out) == FirstSeen(nodes) && DistinctKeys(out)
    && (forall k :: LastValue(out, k) == LastValue(nodes, k))
  }

  /** DeduplicateFrontmatter on the key and value nodes of the mapping. */
  method DeduplicateFrontmatter<V(!new)>(nodes: seq<Node<V>>) returns (out: seq<Node<V>>, hasDuplicates: bool)
    ensures Deduplicates(out, nodes)
    ensures hasDuplicates <==> !DistinctKeys(nodes)
    ensures !hasDuplicates ==> out == nodes
  {
    hide LastValue, FirstSeen, Keys;
    var seen: map<string, nat> := map[];
    assert nodes[..0] == [];
    NothingToDeduplicate<V>();
    out, hasDuplicates := [], false;
    for n := 0 to |nodes|
      invariant Deduplicates(out, nodes[..n])
      invariant forall k :: k in seen ==> seen[k] < |out| && out[seen[k]].key == k
      invariant forall i :: 0 <= i < |out| ==> out[i].key in seen
      invariant hasDuplicates <==> !DistinctKeys(nodes[..n])
      invariant !hasDuplicates ==> out == nodes[..n]
    {
      hide Deduplicates, DistinctKeys;
      var node := nodes[n];
      assert nodes[..n + 1] == nodes[..n] + [node];
      if node.key in seen {
        DuplicateStep(out, nodes[..n], node, seen[node.key]);
        hasDuplicates := true;
        out := out[seen[node.key] := Node(node.key, node.value)];
      } else {
        NewKeyStep(out, nodes[..n], node);
        seen := seen[node.key := |out|];
        out := out + [node];
      }
    }
    assert nodes[..|nodes|] == nodes;
  }

  lemma NothingToDeduplicate<V(!new)>()
    ensures Deduplicates<V>([], [])
  {
  }

  lemma {:induction false} LastValueOfKeys<V>(nodes: seq<Node<V>>, key: string)
    ensures LastValue(nodes, key) == None <==> key !in Keys(nodes)
    ensures key in FirstSeen(nodes) <==> key in Keys(nodes)
  {
    if nodes != [] {
      LastValueOfKeys(nodes[..|nodes| - 1], key);
    }
  }

  lemma {:induction false} LastValueUpdate<V>(out: seq<Node<V>>, i: nat, v: V, key: string)
    requires DistinctKeys(out) && i < |out|
    ensures LastValue(out[i := Node(out[i].key, v)], key) == if key == out[i].key then Some(v) else LastValue(out, key)
  {
    var last := |out| - 1;
    var out' := out[i := Node(out[i].key, v)];
    if i == last {
      assert out'[..last] == out[..last];
    } else {
      assert out'[..last] == out[..last][i := Node(out[i].key, v)];
      LastValueUpdate(out[..last], i, v, key);
    }
  }

  lemma DuplicateStep<V(!new)>(out: seq<Node<V>>, nodes: seq<Node<V>>, node: Node<V>, i: nat)
    requires Deduplicates(out, nodes) && i < |out| && out[i].key == node.key
    ensures Deduplicates(out[i := Node(node.key, node.value)], nodes + [node])
    ensures !DistinctKeys(nodes + [node])
  {
    hide Keys, LastValue, FirstSeen;
    var out' := out[i := Node(node.key, node.value)];
    assert Keys(out)[i] == node.key;
    assert Keys(out') == Keys(out);
    LastValueOfKeys(nodes, node.key);
    OneMoreNode(nodes, node);
    RepeatedKey(nodes, node);
    forall k ensures LastValue(out', k) == LastValue(nodes + [node], k) {
      LastValueUpdate(out, i, node.value, k);
    }
  }

  lemma RepeatedKey<V>(nodes: seq<Node<V>>, node: Node<V>)
    requires node.key in Keys(nodes)
    ensures !DistinctKeys(nodes + [node])
  {
    hide Keys;
    var m :| 0 <= m < |nodes| && Keys(nodes)[m] == node.key;
    var all := nodes + [node];
    assert all[m].key == all[|nodes|].key;
  }

  lemma NewKeyStep<V(!new)>(out: seq<Node<V>>, nodes: seq<Node<V>>, node: Node<V>)
    requires Deduplicates(out, nodes) && forall i :: 0 <= i < |out| ==> out[i].key != node.key
    ensures Deduplicates(out + [node], nodes + [node])
    ensures DistinctKeys(nodes + [node]) <==> DistinctKeys(nodes)
  {
    hide Keys, LastValue, FirstSeen, DistinctKeys;
    assert node.key !in Keys(out);
    LastValueOfKeys(nodes, node.key);
    OneMoreNode(out, node);
    OneMoreNode(nodes, node);
  }

  lemma OneMoreNode<V(!new)>(nodes: seq<Node<V>>, node: Node<V>)
    ensures Keys(nodes + [node]) == Keys(nodes) + [node.key]
    ensures forall k :: LastValue(nodes + [node], k) == if k == node.key then Some(node.value) else LastValue(nodes, k)
    ensures FirstSeen(nodes + [node]) == if node.key in FirstSeen(nodes) then FirstSeen(nodes) else FirstSeen(nodes) + [node.key]
    ensures node.key !in Keys(nodes) ==> (DistinctKeys(nodes + [node]) <==> DistinctKeys(nodes))
  {
    var all := nodes + [node];
    assert all[..|all| - 1] == nodes;
    assert forall m :: 0 <= m < |nodes| ==> all[m] == nodes[m] && Keys(nodes)[m] == nodes[m].key;
  }

  // ---------------------------------------------------------------- readings of a line

  /** The indent is the run of spaces and tabs at the start. */
  lemma {:induction false} IndentExact(line: string)
    ensures Indent(line) <= |line| && forall i :: 0 <= i < Indent(line) ==> line[i] == ' ' || line[i] == '\t'
    ensures Indent(line) < |line| ==> line[Indent(line)] != ' ' && line[Indent(line)] != '\t'
  {
    if line != "" && IsIndent(line[0]) { IndentExact(line[1..]); }
  }

  /** Trailing carriage returns, and only those, are ignored. */
  lemma {:induction false} TrimCrExact(line: string)
    ensures TrimCr(line) <= line && forall i :: |TrimCr(line)| <= i < |line| ==> line[i] == '\r'
    ensures TrimCr(line) != "" ==> TrimCr(line)[|TrimCr(line)| - 1] != '\r'
  {
    if line != "" && line[|line| - 1] == '\r' { TrimCrExact(line[..|line| - 1]); }
  }

  /** A line is blank when nothing but its indent is left of it. */
  lemma BlankExact(line: string)
    ensures Blank(line) <==> Indent(TrimCr(line)) == |TrimCr(line)|
  {
    IndentExact(TrimCr(line));
    hide Indent, TrimCr;
  }
}
