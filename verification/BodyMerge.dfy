/** Section-level merge of markdown bodies (splitBody, headingName, mergeBody).

    The code works on raw strings: it cuts a body into lines, collects the lines
    under each "## " heading and concatenates pieces back together. The reference
    notion is a `Split`: a preamble and an ordered list of sections. */
module BodyMerge {
  import opened Text

  datatype Section = Section(heading: string, content: string)

  datatype Split = Split(preamble: string, sections: seq<Section>)

  // ---------------------------------------------------------------- lines

  /** Length of the first line of `s`, its terminator included. */
  function LineLength(s: string): (n: nat)
    requires s != ""
    ensures 0 < n <= |s|
    ensures forall j :: 0 <= j < n - 1 ==> s[j] != '\n'
    ensures n < |s| ==> s[n - 1] == '\n'
  {
    if s[0] == '\n' || |s| == 1 then 1 else 1 + LineLength(s[1..])
  }

  /** One line: no newline except possibly as the last character. */
  predicate IsLine(s: string) {
    s != "" && LineLength(s) == |s|
  }

  /** The text ends where a line ends, so text appended to it starts a new line. */
  predicate Terminated(s: string) {
    s == "" || s[|s| - 1] == '\n'
  }

  predicate HasSuffix(s: string, suffix: string) {
    |suffix| <= |s| && s[|s| - |suffix|..] == suffix
  }

  function TrimSuffix(s: string, suffix: string): string {
    if HasSuffix(s, suffix) then s[..|s| - |suffix|] else s
  }

  /** The heading line without its "\n" or "\r\n" terminator. */
  function HeadingName(line: string): string {
    TrimSuffix(TrimSuffix(line, "\r\n"), "\n")
  }

  predicate IsHeading(line: string) {
    "## " <= HeadingName(line)
  }

  /** A line starts right after every newline, so cutting `a + b` after a
      terminated, non-empty `a` first cuts the first line of `a`. */
  lemma LineLengthAppend(a: string, b: string)
    requires a != "" && Terminated(a)
    ensures LineLength(a + b) == LineLength(a)
  {
    if a[0] == '\n' {
    } else if |a| == 1 {
    } else {
      assert (a + b)[1..] == a[1..] + b;
      LineLengthAppend(a[1..], b);
    }
  }

  // ------------------------------------------------------- the reference split

  /** One more line in front of a split text. */
  function Push(line: string, rest: Split): Split {
    if IsHeading(line) then Split("", [Section(line, rest.preamble)] + rest.sections)
    else Split(line + rest.preamble, rest.sections)
  }

  function SplitBody(body: string): Split
    decreases |body|
  {
    if body == "" then Split("", [])
    else Push(body[..LineLength(body)], SplitBody(body[LineLength(body)..]))
  }

  function RenderSection(s: Section): string { s.heading + s.content }

  function RenderSections(ss: seq<Section>): string {
    if ss == [] then "" else RenderSection(ss[0]) + RenderSections(ss[1..])
  }

  function Render(m: Split): string { m.preamble + RenderSections(m.sections) }

  /** No line of the text is a heading. */
  predicate Plain(s: string) { SplitBody(s).sections == [] }

  predicate WellFormedSection(s: Section) {
    IsLine(s.heading) && IsHeading(s.heading) && Plain(s.content)
    && (s.content != "" ==> Terminated(s.heading))
  }

  predicate WellFormed(m: Split) {
    Plain(m.preamble) && forall s :: s in m.sections ==> WellFormedSection(s)
  }

  predicate TerminatedSections(ss: seq<Section>) {
    forall s :: s in ss ==> Terminated(RenderSection(s))
  }

  /** Every piece that another piece follows is newline-terminated. */
  predicate Separable(m: Split) {
    m.sections != [] ==> Terminated(m.preamble) && TerminatedSections(m.sections[..|m.sections| - 1])
  }

  /** Every piece is newline-terminated. */
  predicate AllTerminated(m: Split) {
    Terminated(m.preamble) && TerminatedSections(m.sections)
  }

  /** The split of two texts written one after the other: the second preamble
      continues the last piece of the first. */
  function Join(x: Split, y: Split): Split {
    if x.sections == [] then Split(x.preamble + y.preamble, y.sections)
    else Split(x.preamble, Extend(x.sections, y.preamble) + y.sections)
  }

  /** More text under the last heading. */
  function Extend(ss: seq<Section>, text: string): seq<Section>
    requires ss != []
  {
    var last := ss[|ss| - 1];
    ss[|ss| - 1 := Section(last.heading, last.content + text)]
  }

  lemma PushRender(line: string, x: Split)
    ensures Render(Push(line, x)) == line + Render(x)
  {
    if IsHeading(line) {
      var first := Section(line, x.preamble);
      assert ([first] + x.sections)[1..] == x.sections;
    }
  }

  lemma ExtendBehind(first: Section, ss: seq<Section>, text: string)
    requires ss != []
    ensures Extend([first] + ss, text) == [first] + Extend(ss, text)
  {
  }

  lemma PushJoin(line: string, x: Split, y: Split)
    ensures Join(Push(line, x), y) == Push(line, Join(x, y))
  {
    hide IsHeading, Extend;
    if !IsHeading(line) {
      PushTextJoin(line, x, y);
    } else if x.sections == [] {
      PushOnlyJoin(line, x, y);
    } else {
      var first := Section(line, x.preamble);
      ExtendBehind(first, x.sections, y.preamble);
      assert [first] + Extend(x.sections, y.preamble) + y.sections == [first] + (Extend(x.sections, y.preamble) + y.sections);
    }
  }

  lemma PushTextJoin(line: string, x: Split, y: Split)
    requires !IsHeading(line)
    ensures Join(Push(line, x), y) == Push(line, Join(x, y))
  {
    hide IsHeading, Extend;
    assert line + (x.preamble + y.preamble) == line + x.preamble + y.preamble;
  }

  lemma PushOnlyJoin(line: string, x: Split, y: Split)
    requires IsHeading(line) && x.sections == []
    ensures Join(Push(line, x), y) == Push(line, Join(x, y))
  {
    hide IsHeading;
    var first := Section(line, x.preamble);
    assert [first] + x.sections == [first];
    assert Extend([first], y.preamble) == [Section(line, x.preamble + y.preamble)];
  }

  /** Cutting off the first line. */
  lemma FirstLine(s: string)
    requires s != ""
    ensures var n := LineLength(s);
            s == s[..n] + s[n..] && IsLine(s[..n]) && (s[n..] != "" ==> Terminated(s[..n]))
  {
    var n := LineLength(s);
    if s[0] == '\n' || |s| == 1 {
    } else {
      FirstLine(s[1..]);
      assert s[..n][1..] == s[1..][..n - 1];
    }
  }

  /** A line written before a text, when the line is terminated or nothing follows. */
  lemma SplitLineThen(line: string, rest: string)
    requires IsLine(line) && (rest != "" ==> Terminated(line))
    ensures SplitBody(line + rest) == Push(line, SplitBody(rest))
  {
    if rest == "" {
      assert line + rest == line && line[..|line|] == line && line[|line|..] == rest;
    } else {
      LineLengthAppend(line, rest);
      assert (line + rest)[..|line|] == line && (line + rest)[|line|..] == rest;
    }
  }

  /** Splitting loses no character. */
  lemma {:induction false} SplitLossless(body: string)
    ensures Render(SplitBody(body)) == body
    decreases |body|
  {
    if body != "" {
      FirstLine(body);
      SplitLossless(body[LineLength(body)..]);
      PushRender(body[..LineLength(body)], SplitBody(body[LineLength(body)..]));
    }
  }

  lemma PlainSplit(s: string)
    requires Plain(s)
    ensures SplitBody(s) == Split(s, [])
  {
    SplitLossless(s);
  }

  /** Splitting distributes over writing text after newline-terminated text. */
  lemma {:induction false} SplitAppend(a: string, b: string)
    requires Terminated(a)
    ensures SplitBody(a + b) == Join(SplitBody(a), SplitBody(b))
    decreases |a|
  {
    hide LineLength, Push, Join, SplitBody;
    if a == "" {
      assert a + b == b;
      SplitNothing(b);
    } else {
      var n := LineLength(a);
      LineLengthAppend(a, b);
      assert (a + b)[..n] == a[..n] && (a + b)[n..] == a[n..] + b;
      FirstLineOff(a);
      FirstLineOff(a + b);
      TerminatedTail(a);
      SplitAppend(a[n..], b);
      PushJoin(a[..n], SplitBody(a[n..]), SplitBody(b));
    }
  }

  lemma SplitNothing(b: string)
    ensures SplitBody("") == Split("", []) && Join(SplitBody(""), SplitBody(b)) == SplitBody(b)
  {
    hide LineLength, Push;
  }

  lemma FirstLineOff(s: string)
    requires s != ""
    ensures SplitBody(s) == Push(s[..LineLength(s)], SplitBody(s[LineLength(s)..]))
  {
    hide LineLength, Push;
  }

  lemma TerminatedTail(a: string)
    requires Terminated(a) && a != ""
    ensures Terminated(a[LineLength(a)..])
  {
    hide LineLength;
  }

  lemma TerminatedConcat(a: string, b: string)
    ensures Terminated(a + b) <==> Terminated(if b == "" then a else b)
  {
    if b == "" { assert a + b == a; }
  }

  lemma PushHeadingShape(line: string, x: Split)
    requires IsLine(line) && IsHeading(line) && WellFormed(x) && Separable(x)
    requires Terminated(line) || x == Split("", [])
    ensures WellFormed(Push(line, x)) && Separable(Push(line, x))
    ensures Terminated(line) && AllTerminated(x) ==> AllTerminated(Push(line, x))
  {
    hide IsLine, IsHeading, Plain, RenderSection, TerminatedSections, Terminated;
    var first := Section(line, x.preamble);
    NothingPlain();
    if Terminated(line) && Terminated(x.preamble) { HeadingThen(line, x.preamble); }
    assert WellFormedSection(first);
    FirstSeparable(first, x.sections);
  }

  lemma NothingPlain()
    ensures Plain("") && Terminated("")
  {
    hide LineLength, Push;
  }

  lemma HeadingThen(line: string, text: string)
    requires Terminated(line) && Terminated(text)
    ensures Terminated(RenderSection(Section(line, text)))
  {
    TerminatedConcat(line, text);
  }

  lemma FirstSeparable(first: Section, ss: seq<Section>)
    requires ss != [] ==> Terminated(RenderSection(first)) && TerminatedSections(ss[..|ss| - 1])
    ensures Separable(Split("", [first] + ss))
    ensures Terminated(RenderSection(first)) && TerminatedSections(ss) ==> AllTerminated(Split("", [first] + ss))
  {
    hide RenderSection;
    var all := [first] + ss;
    if ss != [] {
      assert all[..|all| - 1] == [first] + ss[..|ss| - 1];
    } else {
      assert all[..|all| - 1] == [];
    }
  }

  lemma PushTextShape(line: string, x: Split)
    requires IsLine(line) && !IsHeading(line) && WellFormed(x) && Separable(x)
    requires Terminated(line) || x == Split("", [])
    ensures WellFormed(Push(line, x)) && Separable(Push(line, x))
    ensures Terminated(line) && AllTerminated(x) ==> AllTerminated(Push(line, x))
  {
    TerminatedConcat(line, x.preamble);
    SplitLineThen(line, x.preamble);
  }

  /** Whatever splitting yields is a well-formed, separable split; of a terminated
      text, every piece is terminated. */
  lemma {:induction false} SplitShape(body: string)
    ensures WellFormed(SplitBody(body)) && Separable(SplitBody(body))
    ensures Terminated(body) ==> AllTerminated(SplitBody(body))
    decreases |body|
  {
    if body != "" {
      var n := LineLength(body);
      FirstLine(body);
      SplitShape(body[n..]);
      if IsHeading(body[..n]) {
        PushHeadingShape(body[..n], SplitBody(body[n..]));
      } else {
        PushTextShape(body[..n], SplitBody(body[n..]));
      }
      TerminatedConcat(body[..n], body[n..]);
    }
  }

  lemma SplitSection(s: Section)
    requires WellFormedSection(s)
    ensures SplitBody(RenderSection(s)) == Split("", [s])
  {
    SplitLineThen(s.heading, s.content);
    PlainSplit(s.content);
  }

  lemma JoinSection(head: Section, tail: seq<Section>)
    ensures Join(Split("", [head]), Split("", tail)) == Split("", [head] + tail)
  {
    assert head.content + "" == head.content;
  }

  lemma {:induction false} SplitSections(ss: seq<Section>)
    requires forall s :: s in ss ==> WellFormedSection(s)
    requires ss != [] ==> TerminatedSections(ss[..|ss| - 1])
    ensures SplitBody(RenderSections(ss)) == Split("", ss)
  {
    hide WellFormedSection, RenderSection, TerminatedSections, SplitBody;
    if ss == [] {
      SplitNothing("");
    } else if |ss| == 1 {
      hide RenderSections;
      SplitLastSection(ss);
    } else {
      HeadTerminated(ss);
      SplitSections(ss[1..]);
      SplitSectionThen(ss[0], ss[1..]);
      assert ss == [ss[0]] + ss[1..];
    }
  }

  lemma HeadTerminated(ss: seq<Section>)
    requires |ss| > 1 && TerminatedSections(ss[..|ss| - 1])
    ensures Terminated(RenderSection(ss[0])) && TerminatedSections(ss[1..][..|ss| - 2])
  {
    hide Terminated, RenderSection;
    assert ss[0] in ss[..|ss| - 1];
    assert ss[1..][..|ss| - 2] == ss[..|ss| - 1][1..];
  }

  lemma SplitSectionThen(head: Section, tail: seq<Section>)
    requires WellFormedSection(head) && Terminated(RenderSection(head))
    requires SplitBody(RenderSections(tail)) == Split("", tail)
    ensures SplitBody(RenderSection(head) + RenderSections(tail)) == Split("", [head] + tail)
  {
    hide SplitBody, WellFormedSection, Join, RenderSection, RenderSections;
    SplitSection(head);
    SplitAppend(RenderSection(head), RenderSections(tail));
    JoinSection(head, tail);
  }

  lemma SplitLastSection(ss: seq<Section>)
    requires |ss| == 1 && WellFormedSection(ss[0])
    ensures SplitBody(RenderSections(ss)) == Split("", ss)
  {
    SplitSection(ss[0]);
    assert RenderSections(ss) == RenderSection(ss[0]) + RenderSections(ss[1..]);
    assert RenderSections(ss) == RenderSection(ss[0]);
    assert ss == [ss[0]];
  }

  /** Rendering and splitting are inverse on exactly the well-formed separable splits. */
  lemma RenderSplitExact(m: Split)
    ensures SplitBody(Render(m)) == m <==> WellFormed(m) && Separable(m)
  {
    if WellFormed(m) && Separable(m) {
      SplitSections(m.sections);
      PlainSplit(m.preamble);
      if m.sections == [] {
        assert Render(m) == m.preamble;
      } else {
        SplitAppend(m.preamble, RenderSections(m.sections));
      }
    }
    SplitShape(Render(m));
  }

  lemma {:induction false} RenderTerminated(m: Split)
    requires AllTerminated(m)
    ensures Terminated(Render(m))
  {
    SectionsTerminated(m.sections);
    TerminatedConcat(m.preamble, RenderSections(m.sections));
  }

  lemma {:induction false} SectionsTerminated(ss: seq<Section>)
    requires TerminatedSections(ss)
    ensures Terminated(RenderSections(ss))
  {
    if ss != [] {
      SectionsTerminated(ss[1..]);
      TerminatedConcat(RenderSection(ss[0]), RenderSections(ss[1..]));
    }
  }

  // ------------------------------------------------------- the intended merge

  function Name(s: Section): string { HeadingName(s.heading) }

  predicate Names(ss: seq<Section>, name: string) {
    exists i :: 0 <= i < |ss| && Name(ss[i]) == name
  }

  /** The last section of that name. */
  function LastNamed(ss: seq<Section>, name: string): (s: Section)
    requires Names(ss, name)
    ensures s in ss && Name(s) == name
  {
    var last := ss[|ss| - 1];
    if Name(last) == name then last else LastNamed(ss[..|ss| - 1], name)
  }

  /** On-disk sections in on-disk order, each same-named one replaced. */
  function Replaced(existing: seq<Section>, incoming: seq<Section>): (r: seq<Section>)
    ensures |r| == |existing|
    ensures forall i :: 0 <= i < |r| ==>
      r[i] == if Names(incoming, Name(existing[i])) then LastNamed(incoming, Name(existing[i])) else existing[i]
  {
    seq(|existing|, i requires 0 <= i < |existing| =>
      if Names(incoming, Name(existing[i])) then LastNamed(incoming, Name(existing[i])) else existing[i])
  }

  /** Section names of `ss` in first-seen order, each once. */
  function FirstSeen(ss: seq<Section>): seq<string> {
    if ss == [] then []
    else
      var before := FirstSeen(ss[..|ss| - 1]);
      var name := Name(ss[|ss| - 1]);
      if name in before then before else before + [name]
  }

  function Appended(existing: seq<Section>, incoming: seq<Section>, names: seq<string>): seq<Section>
    requires forall n :: n in names ==> Names(incoming, n)
  {
    if names == [] then []
    else
      var before := Appended(existing, incoming, names[..|names| - 1]);
      var name := names[|names| - 1];
      if Names(existing, name) then before else before + [LastNamed(incoming, name)]
  }

  function MergeSplits(existing: Split, incoming: Split): Split {
    FirstSeenNames(incoming.sections);
    Split(if HasText(incoming.preamble) then incoming.preamble else existing.preamble,
          Replaced(existing.sections, incoming.sections)
          + Appended(existing.sections, incoming.sections, FirstSeen(incoming.sections)))
  }

  /** The merged body text. */
  function MergedBody(existing: string, incoming: string): string {
    Render(MergeSplits(SplitBody(existing), SplitBody(incoming)))
  }

  lemma NamesConcat(a: seq<Section>, b: seq<Section>, name: string)
    ensures Names(a + b, name) <==> Names(a, name) || Names(b, name)
  {
    if Names(a, name) {
      var k :| 0 <= k < |a| && Name(a[k]) == name;
      assert (a + b)[k] == a[k];
    }
    if Names(b, name) {
      var k :| 0 <= k < |b| && Name(b[k]) == name;
      assert (a + b)[|a| + k] == b[k];
    }
  }

  lemma NamesOneMore(ss: seq<Section>, k: nat)
    requires k < |ss|
    ensures ss[..k + 1] == ss[..k] + [ss[k]] && ss[..k + 1][..k] == ss[..k]
    ensures forall n :: Names(ss[..k + 1], n) <==> Names(ss[..k], n) || n == Name(ss[k])
  {
    forall n ensures Names(ss[..k + 1], n) <==> Names(ss[..k], n) || n == Name(ss[k]) {
      NamesConcat(ss[..k], [ss[k]], n);
      assert ss[..k + 1] == ss[..k] + [ss[k]];
      assert Names([ss[k]], n) <==> n == Name([ss[k]][0]);
    }
  }

  lemma {:induction false} FirstSeenNames(ss: seq<Section>)
    ensures forall n :: n in FirstSeen(ss) <==> Names(ss, n)
    ensures forall i, j :: 0 <= i < j < |FirstSeen(ss)| ==> FirstSeen(ss)[i] != FirstSeen(ss)[j]
  {
    hide Name;
    if ss != [] {
      hide Names;
      FirstSeenNames(ss[..|ss| - 1]);
      NamesOneMore(ss, |ss| - 1);
      assert ss[..|ss|] == ss;
    }
  }

  lemma AppendedMembers(existing: seq<Section>, incoming: seq<Section>, names: seq<string>)
    requires forall n :: n in names ==> Names(incoming, n)
    ensures forall s :: s in Appended(existing, incoming, names) ==>
      s in incoming && Name(s) in names && !Names(existing, Name(s)) && s == LastNamed(incoming, Name(s))
    ensures forall n :: n in names && !Names(existing, n) ==> Names(Appended(existing, incoming, names), n)
  {
    hide Name, LastNamed;
    if names != [] {
      var init, name := names[..|names| - 1], names[|names| - 1];
      AppendedMembers(existing, incoming, init);
      var before, all := Appended(existing, incoming, init), Appended(existing, incoming, names);
      forall n | n in names && !Names(existing, n) ensures Names(all, n) {
        if n == name {
          assert Name(all[|all| - 1]) == n;
        } else {
          assert n in init;
          var i :| 0 <= i < |before| && Name(before[i]) == n;
          assert Name(all[i]) == n;
        }
      }
    }
  }

  /** Every merged section comes from one of the two sides. */
  lemma MergeMembers(e: Split, i: Split)
    ensures forall s :: s in MergeSplits(e, i).sections ==> s in e.sections || s in i.sections
  {
    FirstSeenNames(i.sections);
    AppendedMembers(e.sections, i.sections, FirstSeen(i.sections));
  }

  lemma MergeWellFormed(e: Split, i: Split)
    requires WellFormed(e) && WellFormed(i)
    ensures WellFormed(MergeSplits(e, i))
    ensures AllTerminated(e) && AllTerminated(i) ==> AllTerminated(MergeSplits(e, i))
  {
    MergeMembers(e, i);
  }

  /** For newline-terminated bodies the merged text splits into exactly the merged
      section list; in general it does so exactly when no unterminated piece is
      followed by another (otherwise the next heading is glued onto its text). */
  lemma MergeIsSectionMerge(existing: string, incoming: string)
    ensures var m := MergeSplits(SplitBody(existing), SplitBody(incoming));
            SplitBody(MergedBody(existing, incoming)) == m <==> Separable(m)
    ensures Terminated(existing) && Terminated(incoming) ==>
      && SplitBody(MergedBody(existing, incoming)) == MergeSplits(SplitBody(existing), SplitBody(incoming))
      && Terminated(MergedBody(existing, incoming))
  {
    var e, i := SplitBody(existing), SplitBody(incoming);
    SplitShape(existing);
    SplitShape(incoming);
    MergeWellFormed(e, i);
    RenderSplitExact(MergeSplits(e, i));
    if Terminated(existing) && Terminated(incoming) {
      RenderTerminated(MergeSplits(e, i));
    }
  }

  lemma ReplacedNamed(existing: seq<Section>, incoming: seq<Section>, name: string)
    requires Names(incoming, name)
    ensures forall s :: s in Replaced(existing, incoming) && Name(s) == name ==> s == LastNamed(incoming, name)
    ensures Names(existing, name) ==> Names(Replaced(existing, incoming), name)
  {
    if Names(existing, name) {
      var k :| 0 <= k < |existing| && Name(existing[k]) == name;
      assert Name(Replaced(existing, incoming)[k]) == name;
    }
  }

  /** After a merge, every incoming name is present, and only with its last content. */
  lemma MergeSettles(e: Split, i: Split, name: string)
    requires Names(i.sections, name)
    ensures Names(MergeSplits(e, i).sections, name)
    ensures forall s :: s in MergeSplits(e, i).sections && Name(s) == name ==> s == LastNamed(i.sections, name)
  {
    var names := FirstSeen(i.sections);
    FirstSeenNames(i.sections);
    AppendedMembers(e.sections, i.sections, names);
    ReplacedNamed(e.sections, i.sections, name);
    NamesConcat(Replaced(e.sections, i.sections), Appended(e.sections, i.sections, names), name);
  }

  lemma MergeSplitsIdempotent(e: Split, i: Split)
    ensures MergeSplits(MergeSplits(e, i), i) == MergeSplits(e, i)
  {
    hide Name, LastNamed, FirstSeen, HasText;
    var m := MergeSplits(e, i);
    forall name | Names(i.sections, name)
      ensures Names(m.sections, name)
      ensures forall s :: s in m.sections && Name(s) == name ==> s == LastNamed(i.sections, name)
    {
      MergeSettles(e, i, name);
    }
    assert Replaced(m.sections, i.sections) == m.sections;
    FirstSeenNames(i.sections);
    NothingAppended(m.sections, i.sections, FirstSeen(i.sections));
  }

  lemma {:induction false} NothingAppended(existing: seq<Section>, incoming: seq<Section>, names: seq<string>)
    requires forall n :: n in names ==> Names(incoming, n) && Names(existing, n)
    ensures Appended(existing, incoming, names) == []
  {
    if names != [] {
      assert names[|names| - 1] in names;
      NothingAppended(existing, incoming, names[..|names| - 1]);
    }
  }

  /** Redelivering a body changes nothing more, unless the first merge glued a heading
      onto unterminated text. */
  lemma MergeIdempotent(existing: string, incoming: string)
    requires Separable(MergeSplits(SplitBody(existing), SplitBody(incoming)))
    ensures MergedBody(MergedBody(existing, incoming), incoming) == MergedBody(existing, incoming)
  {
    MergeIsSectionMerge(existing, incoming);
    MergeSplitsIdempotent(SplitBody(existing), SplitBody(incoming));
  }

  /** Bodies that end in a newline never glue. */
  lemma TerminatedNeverGlues(existing: string, incoming: string)
    requires Terminated(existing) && Terminated(incoming)
    ensures Separable(MergeSplits(SplitBody(existing), SplitBody(incoming)))
  {
    MergeIsSectionMerge(existing, incoming);
  }

  /** An unterminated section and one of a new name: the new heading is glued onto the
      old text, the merged text shows one section instead of two, and a redelivery
      appends the new section a second time. */
  lemma GluedSections(a: Section, b: Section)
    requires WellFormedSection(a) && WellFormedSection(b) && Name(a) != Name(b) && !Terminated(RenderSection(a))
    requires Terminated(a.heading) && Plain(a.content + RenderSection(b))
    ensures !Separable(MergeSplits(SplitBody(RenderSection(a)), SplitBody(RenderSection(b))))
    ensures MergedBody(RenderSection(a), RenderSection(b)) == RenderSection(a) + RenderSection(b)
    ensures SplitBody(RenderSection(a) + RenderSection(b)).sections == [Section(a.heading, a.content + RenderSection(b))]
    ensures MergedBody(RenderSection(a) + RenderSection(b), RenderSection(b))
         == RenderSection(a) + RenderSection(b) + RenderSection(b)
  {
    var glued := Section(a.heading, a.content + RenderSection(b));
    hide IsHeading, IsLine, Plain, HeadingName, SplitBody, MergeSplits, Render;
    assert RenderSection(glued) == RenderSection(a) + RenderSection(b);
    SplitSection(a);
    SplitSection(b);
    SplitSection(glued);
    TwoSections(a, b);
    TwoSections(glued, b);
    assert [a, b][..1] == [a] && a in [a];
  }

  /** For instance "## A", "x" without a newline, then "## B", "y". */
  lemma GluedMerge(a: Section, b: Section)
    requires a.heading == "## A\n" && a.content == "x" && b.heading == "## B\n" && b.content == "y\n"
    ensures !Separable(MergeSplits(SplitBody(RenderSection(a)), SplitBody(RenderSection(b))))
    ensures MergedBody(MergedBody(RenderSection(a), RenderSection(b)), RenderSection(b))
         != MergedBody(RenderSection(a), RenderSection(b))
  {
    hide LineLength, IsHeading, IsLine, Plain, HeadingName, SplitBody, MergeSplits, Render;
    SmallHeading(a.heading, 'A');
    SmallHeading(b.heading, 'B');
    OneTextLine(a.content);
    OneTextLine(b.content);
    GluedContent(a.content, b.heading, b.content);
    assert !Terminated(RenderSection(a));
    assert ("## " + ['A'])[3] == 'A' && ("## " + ['B'])[3] == 'B';
    GluedSections(a, b);
    assert |RenderSection(b)| > 0;
  }

  lemma NewlineAtEnd(s: string)
    requires s != "" && forall i :: 0 <= i < |s| - 1 ==> s[i] != '\n'
    ensures IsLine(s)
  {
  }

  lemma SmallHeading(line: string, c: char)
    requires line == "## " + [c] + "\n" && c != '\r' && c != '\n'
    ensures IsLine(line) && IsHeading(line) && HeadingName(line) == "## " + [c]
  {
    NewlineAtEnd(line);
    assert line[|line| - 2] == c && line[|line| - 2..][0] == c;
    assert line[|line| - 1..] == "\n" && line[..|line| - 1] == "## " + [c];
  }

  lemma OneTextLine(s: string)
    requires s != "" && s[0] != '#' && s[0] != '\n' && s[0] != '\r'
    requires forall i :: 0 <= i < |s| - 1 ==> s[i] != '\n'
    ensures !IsHeading(s) && Plain(s)
  {
    NewlineAtEnd(s);
    NoHeading(s);
    hide LineLength, IsHeading;
    var t := "";
    assert s + t == s && SplitBody(t) == Split("", []);
    SplitLineThen(s, t);
  }

  lemma NoHeading(s: string)
    requires s != "" && s[0] != '#' && s[0] != '\n' && s[0] != '\r'
    ensures !IsHeading(s)
  {
    assert |HeadingName(s)| > 0 ==> HeadingName(s)[0] == s[0];
  }

  lemma GluedContent(x: string, h: string, y: string)
    requires x == "x" && Plain(y) && Terminated(h) && h != "" && forall i :: 0 <= i < |h| - 1 ==> h[i] != '\n'
    ensures Plain(x + (h + y))
  {
    hide IsHeading, SplitBody, IsLine;
    var line := x + h;
    assert line[0] == 'x' && forall i :: 1 <= i < |line| ==> line[i] == h[i - 1];
    NewlineAtEnd(line);
    NoHeading(line);
    PlainBehind(line, y);
    assert line + y == x + (h + y);
  }

  lemma PlainBehind(line: string, rest: string)
    requires IsLine(line) && Terminated(line) && !IsHeading(line) && Plain(rest)
    ensures Plain(line + rest)
  {
    hide IsHeading, SplitBody, IsLine;
    SplitLineThen(line, rest);
  }

  /** Merging a section of a new name behind a single other one. */
  lemma TwoSections(kept: Section, added: Section)
    requires Name(kept) != Name(added)
    ensures MergeSplits(Split("", [kept]), Split("", [added])) == Split("", [kept, added])
    ensures Render(Split("", [kept, added])) == RenderSection(kept) + RenderSection(added)
  {
    OneNewName(kept, added);
    RenderTwo(kept, added);
    NoTextInNothing();
    hide *;
    assert [kept] + [added] == [kept, added];
  }

  lemma OneNewName(kept: Section, added: Section)
    requires Name(kept) != Name(added)
    ensures MergeSplits(Split("", [kept]), Split("", [added])).sections == [kept] + [added]
    ensures !HasText("") ==> MergeSplits(Split("", [kept]), Split("", [added])).preamble == ""
  {
    hide Name, HasText;
    assert [added][..0] == [];
    assert FirstSeen([added]) == [Name(added)];
    assert Name([added][0]) == Name(added) && Name([kept][0]) == Name(kept);
    assert Replaced([kept], [added]) == [kept];
    var names := [Name(added)];
    assert names[..0] == [] && Appended([kept], [added], names) == [] + [LastNamed([added], Name(added))];
  }

  lemma NoTextInNothing()
    ensures !HasText("")
  {
  }

  lemma RenderTwo(a: Section, b: Section)
    ensures Render(Split("", [a, b])) == RenderSection(a) + RenderSection(b)
  {
    hide RenderSection;
    assert [a, b][1..] == [b] && [b][1..] == [];
    assert RenderSections([b]) == RenderSection(b) + RenderSections([]);
  }

  // ------------------------------------------------------- the loops

  /** One more line behind a split text: what one round of the split loop does. */
  function Add(x: Split, line: string): Split {
    if IsHeading(line) then Split(x.preamble, x.sections + [Section(line, "")])
    else if x.sections == [] then Split(x.preamble + line, [])
    else Split(x.preamble, Extend(x.sections, line))
  }

  lemma JoinPush(x: Split, line: string, y: Split)
    ensures Join(x, Push(line, y)) == Join(Add(x, line), y)
  {
    var heading := IsHeading(line);
    if heading {
      var first := Section(line, y.preamble);
      assert "" + y.preamble == y.preamble;
      assert Extend(x.sections + [Section(line, "")], y.preamble) == x.sections + [first];
      if x.sections != [] {
        ExtendEmpty(x.sections);
        assert x.sections + [first] + y.sections == x.sections + ([first] + y.sections);
      } else {
        assert x.preamble + "" == x.preamble;
      }
    } else if x.sections == [] {
      assert x.preamble + (line + y.preamble) == x.preamble + line + y.preamble;
    } else {
      ExtendTwice(x.sections, line, y.preamble);
    }
  }

  lemma ExtendEmpty(ss: seq<Section>)
    requires ss != []
    ensures Extend(ss, "") == ss
  {
    var text := ss[|ss| - 1].content;
    assert text + "" == text;
  }

  lemma ExtendTwice(ss: seq<Section>, a: string, b: string)
    requires ss != []
    ensures Extend(Extend(ss, a), b) == Extend(ss, a + b)
  {
    var text := ss[|ss| - 1].content;
    assert text + a + b == text + (a + b);
  }

  method CutLine(body: string) returns (line: string, rest: string)
    requires body != ""
    ensures line == body[..LineLength(body)] && rest == body[LineLength(body)..]
  {
    var i := 0;
    while i < |body| && body[i] != '\n'
      invariant 0 <= i <= |body|
      invariant forall j :: 0 <= j < i ==> body[j] != '\n'
    {
      i := i + 1;
    }
    var n := if i < |body| then i + 1 else i;
    line, rest := body[..n], body[n..];
    // LineLength is the only cut whose line holds a newline nowhere but at its end
    assert n == LineLength(body);
  }

  method SplitBodyText(body: string) returns (preamble: string, sections: seq<Section>)
    ensures Split(preamble, sections) == SplitBody(body)
  {
    preamble, sections := "", [];
    var rest := body;
    assert Join(Split("", []), SplitBody(rest)) == SplitBody(body);
    while rest != ""
      invariant Join(Split(preamble, sections), SplitBody(rest)) == SplitBody(body)
      decreases |rest|
    {
      var line, tail := CutLine(rest);
      JoinPush(Split(preamble, sections), line, SplitBody(tail));
      if IsHeading(line) {
        sections := sections + [Section(line, "")];
      } else if sections == [] {
        preamble := preamble + line;
      } else {
        sections := Extend(sections, line);
      }
      rest := tail;
    }
    JoinEmpty(Split(preamble, sections));
  }

  lemma JoinEmpty(x: Split)
    ensures Join(x, Split("", [])) == x
  {
    if x.sections == [] {
      assert x.preamble + "" == x.preamble;
    } else {
      ExtendEmpty(x.sections);
    }
  }

  lemma RenderConcat(a: seq<Section>, b: seq<Section>)
    ensures RenderSections(a + b) == RenderSections(a) + RenderSections(b)
  {
    if a == [] {
      assert a + b == b;
    } else {
      assert (a + b)[1..] == a[1..] + b;
      RenderConcat(a[1..], b);
    }
  }

  lemma ConcatAssoc(a: string, b: string, c: string)
    ensures a + b + c == a + (b + c)
  {
  }

  lemma RenderOneMore(text: string, a: seq<Section>, s: Section)
    ensures text + RenderSections(a + [s]) == text + RenderSections(a) + s.heading + s.content
  {
    RenderConcat(a, [s]);
    assert RenderSections([s]) == RenderSection(s) + RenderSections([]);
    assert RenderSections([s]) == RenderSection(s);
    ConcatAssoc(text, RenderSections(a), RenderSection(s));
    ConcatAssoc(text + RenderSections(a), s.heading, s.content);
  }

  /** Incoming sections by name (the last wins) and their names in first-seen order. */
  method IndexByName(incoming: seq<Section>) returns (byName: map<string, Section>, order: seq<string>)
    ensures order == FirstSeen(incoming)
    ensures forall n :: n in byName <==> Names(incoming, n)
    ensures forall n :: n in byName ==> byName[n] == LastNamed(incoming, n)
  {
    byName, order := map[], [];
    NothingNamed(incoming);
    hide *;
    for k := 0 to |incoming|
      invariant order == FirstSeen(incoming[..k]) && Indexes(byName, incoming[..k])
    {
      var section := incoming[k];
      var name := HeadingName(section.heading);
      NamedOneMore(incoming, k);
      IndexOneMore(byName, incoming, k);
      if name !in byName {
        order := order + [name];
      }
      byName := byName[name := section];
    }
    assert incoming[..|incoming|] == incoming;
    IndexesExact(byName, incoming);
  }

  /** The map takes every name of the sections to the last section of that name. */
  ghost predicate Indexes(byName: map<string, Section>, ss: seq<Section>) {
    && (forall n :: n in byName <==> Names(ss, n))
    && (forall n :: n in byName ==> byName[n] == LastNamed(ss, n))
  }

  lemma IndexesExact(byName: map<string, Section>, ss: seq<Section>)
    requires Indexes(byName, ss)
    ensures forall n :: n in byName <==> Names(ss, n)
    ensures forall n :: n in byName ==> byName[n] == LastNamed(ss, n)
  {
    hide Names, LastNamed;
  }

  lemma IndexOneMore(byName: map<string, Section>, ss: seq<Section>, k: nat)
    requires k < |ss| && Indexes(byName, ss[..k])
    ensures var name := HeadingName(ss[k].heading);
            && Indexes(byName[name := ss[k]], ss[..k + 1])
            && (name in byName <==> name in FirstSeen(ss[..k]))
  {
    hide Names, LastNamed, FirstSeen, HeadingName;
    NamedOneMore(ss, k);
    NamesOneMore(ss, k);
    FirstSeenNames(ss[..k]);
  }

  lemma NothingNamed(ss: seq<Section>)
    ensures FirstSeen(ss[..0]) == [] && Indexes(map[], ss[..0])
  {
  }

  lemma NamedOneMore(ss: seq<Section>, k: nat)
    requires k < |ss|
    ensures var name := HeadingName(ss[k].heading);
            && name == Name(ss[k])
            && FirstSeen(ss[..k + 1]) == (if name in FirstSeen(ss[..k]) then FirstSeen(ss[..k]) else FirstSeen(ss[..k]) + [name])
            && Names(ss[..k + 1], name) && LastNamed(ss[..k + 1], name) == ss[k]
            && (forall n :: n != name && Names(ss[..k], n) ==> Names(ss[..k + 1], n) && LastNamed(ss[..k + 1], n) == LastNamed(ss[..k], n))
  {
    hide HeadingName;
    NamesOneMore(ss, k);
    assert ss[..k + 1][..k] == ss[..k] && ss[..k + 1][k] == ss[k];
    assert Name(ss[..k + 1][k]) == HeadingName(ss[k].heading);
    hide Names;
  }

  /** Writes the on-disk sections in order, each same-named one replaced. */
  method WriteExisting(preamble: string, existing: seq<Section>, ghost incoming: seq<Section>,
                       byName: map<string, Section>)
    returns (out: string, existingNames: set<string>)
    requires forall n :: n in byName <==> Names(incoming, n)
    requires forall n :: n in byName ==> byName[n] == LastNamed(incoming, n)
    ensures out == preamble + RenderSections(Replaced(existing, incoming))
    ensures forall n :: n in existingNames <==> Names(existing, n)
  {
    out, existingNames := preamble, {};
    ghost var done := Replaced(existing, incoming);
    NothingWritten(preamble, existing, done);
    hide *;
    for k := 0 to |existing|
      invariant out == preamble + RenderSections(done[..k])
      invariant forall n :: n in existingNames <==> Names(existing[..k], n)
    {
      var name := HeadingName(existing[k].heading);
      var section := if name in byName then byName[name] else existing[k];
      ReplacedAt(existing, incoming, k, name);
      ReplacedOneMore(preamble, done, k);
      NamesOneMore(existing, k);
      existingNames := existingNames + {name};
      out := out + section.heading + section.content;
    }
    assert existing[..|existing|] == existing && done[..|done|] == done;
  }

  lemma NothingWritten(text: string, existing: seq<Section>, done: seq<Section>)
    ensures text == text + RenderSections(done[..0])
    ensures forall n :: !Names(existing[..0], n)
  {
  }

  lemma ReplacedAt(existing: seq<Section>, incoming: seq<Section>, k: nat, name: string)
    requires k < |existing| && name == HeadingName(existing[k].heading)
    ensures name == Name(existing[k]) && |Replaced(existing, incoming)| == |existing|
    ensures Replaced(existing, incoming)[k] == if Names(incoming, name) then LastNamed(incoming, name) else existing[k]
  {
    hide HeadingName;
  }

  lemma ReplacedOneMore(text: string, ss: seq<Section>, k: nat)
    requires k < |ss|
    ensures text + RenderSections(ss[..k + 1]) == text + RenderSections(ss[..k]) + ss[k].heading + ss[k].content
  {
    assert ss[..k + 1] == ss[..k] + [ss[k]];
    RenderOneMore(text, ss[..k], ss[k]);
  }

  /** Writes, in first-seen order, the incoming sections the disk did not have. */
  method WriteNew(text: string, ghost existing: seq<Section>, ghost incoming: seq<Section>,
                  byName: map<string, Section>, order: seq<string>, existingNames: set<string>)
    returns (out: string)
    requires forall n :: n in existingNames <==> Names(existing, n)
    requires forall n :: n in order ==> Names(incoming, n)
    requires forall n :: n in order ==> n in byName && byName[n] == LastNamed(incoming, n)
    ensures out == text + RenderSections(Appended(existing, incoming, order))
  {
    out := text;
    for k := 0 to |order|
      invariant out == text + RenderSections(Appended(existing, incoming, order[..k]))
    {
      AppendedOneMore(text, existing, incoming, order, k);
      if order[k] !in existingNames {
        var section := byName[order[k]];
        out := out + (section.heading + section.content);
      }
    }
    assert order[..|order|] == order;
  }

  lemma AppendedOneMore(text: string, existing: seq<Section>, incoming: seq<Section>, order: seq<string>, k: nat)
    requires k < |order| && forall n :: n in order ==> Names(incoming, n)
    ensures text + RenderSections(Appended(existing, incoming, order[..k + 1]))
         == text + RenderSections(Appended(existing, incoming, order[..k]))
            + (if Names(existing, order[k]) then "" else RenderSection(LastNamed(incoming, order[k])))
  {
    var before := Appended(existing, incoming, order[..k]);
    assert order[..k + 1][..k] == order[..k];
    if !Names(existing, order[k]) {
      var s := LastNamed(incoming, order[k]);
      RenderOneMore(text, before, s);
      ConcatAssoc(text + RenderSections(before), s.heading, s.content);
    }
  }

  /** mergeBody: the string the loops assemble is the text of the section merge. */
  method MergeBody(existingBody: string, incomingBody: string) returns (out: string)
    ensures out == MergedBody(existingBody, incomingBody)
  {
    var existingPreamble, existing := SplitBodyText(existingBody);
    var incomingPreamble, incoming := SplitBodyText(incomingBody);
    var byName, order := IndexByName(incoming);
    var preamble := existingPreamble;
    var text := HasNonSpace(incomingPreamble);
    if text {
      preamble := incomingPreamble;
    }
    var existingNames;
    out, existingNames := WriteExisting(preamble, existing, incoming, byName);
    FirstSeenNames(incoming);
    out := WriteNew(out, existing, incoming, byName, order, existingNames);
    RenderConcat(Replaced(existing, incoming), Appended(existing, incoming, order));
    ConcatAssoc(preamble, RenderSections(Replaced(existing, incoming)),
                RenderSections(Appended(existing, incoming, order)));
  }

  method HasNonSpace(s: string) returns (r: bool)
    ensures r == HasText(s)
  {
    var i := 0;
    while i < |s| && IsSpace(s[i])
      invariant 0 <= i <= |s|
      invariant forall j :: 0 <= j < i ==> IsSpace(s[j])
    {
      i := i + 1;
    }
    r := i < |s|;
  }

  // ------------------------------------------------------- what the merge holds

  /** A heading is named by its line without the line end, be it LF or CRLF. */
  lemma HeadingNameExact(name: string)
    requires name != "" && name[|name| - 1] != '\n' && name[|name| - 1] != '\r'
    ensures HeadingName(name) == HeadingName(name + "\n") == HeadingName(name + "\r\n") == name
    ensures IsHeading(name + "\n") <==> |name| >= 3 && name[0] == '#' && name[1] == '#' && name[2] == ' '
  {
    var lf, crlf := name + "\n", name + "\r\n";
    assert lf[|lf| - 2] == name[|name| - 1] && lf[|lf| - 2..][0] == lf[|lf| - 2];
    assert lf[|lf| - 1..] == "\n" && lf[..|lf| - 1] == name;
    assert crlf[|crlf| - 2..] == "\r\n" && crlf[..|crlf| - 2] == name;
    assert |name| >= 1 ==> name[|name| - 1..][0] == name[|name| - 1];
    assert |name| >= 2 ==> name[|name| - 2..][1] == name[|name| - 1];
    assert |name| >= 3 ==> name[..3] == [name[0], name[1], name[2]];
  }

  /** Where the disk already has text, an incoming preamble wins exactly when something in
      it is visible. */
  lemma PreambleMerged(existing: string, incoming: string)
    requires Terminated(existing) && Terminated(incoming)
    ensures var e, i := SplitBody(existing).preamble, SplitBody(incoming).preamble;
            SplitBody(MergedBody(existing, incoming)).preamble
            == if exists n :: 0 <= n < |i| && !IsSpace(i[n]) then i else e
  {
    MergeIsSectionMerge(existing, incoming);
    hide SplitBody, MergedBody, Replaced, Appended, FirstSeen, IsSpace;
  }

  /** On-disk sections keep their places and names, and their text where the incoming body
      has no section of that name. Behind them stand the incoming names the disk did not
      have. */
  lemma SectionsMerged(e: Split, i: Split)
    ensures var m := MergeSplits(e, i).sections;
            && |m| >= |e.sections|
            && (forall j :: 0 <= j < |e.sections| ==> Name(m[j]) == Name(e.sections[j]))
            && (forall j :: 0 <= j < |e.sections| && !Names(i.sections, Name(e.sections[j])) ==> m[j] == e.sections[j])
            && NamesOf(m[|e.sections|..]) == Missing(FirstSeen(i.sections), e.sections)
  {
    FirstSeenNames(i.sections);
    var replaced, appended := Replaced(e.sections, i.sections), Appended(e.sections, i.sections, FirstSeen(i.sections));
    AppendedNames(e.sections, i.sections, FirstSeen(i.sections));
    hide Name, FirstSeen, Appended, LastNamed, HasText, NamesOf, Missing;
    assert (replaced + appended)[|e.sections|..] == appended;
  }

  function NamesOf(ss: seq<Section>): seq<string> {
    if ss == [] then [] else NamesOf(ss[..|ss| - 1]) + [Name(ss[|ss| - 1])]
  }

  /** The names, in order, that no section bears. */
  function Missing(names: seq<string>, ss: seq<Section>): seq<string> {
    if names == [] then []
    else
      var before, last := Missing(names[..|names| - 1], ss), names[|names| - 1];
      if Names(ss, last) then before else before + [last]
  }

  lemma {:induction false} AppendedNames(existing: seq<Section>, incoming: seq<Section>, names: seq<string>)
    requires forall n :: n in names ==> Names(incoming, n)
    ensures NamesOf(Appended(existing, incoming, names)) == Missing(names, existing)
  {
    hide Name;
    if names != [] {
      var init, last := names[..|names| - 1], names[|names| - 1];
      AppendedNames(existing, incoming, init);
      if !Names(existing, last) {
        var before, s := Appended(existing, incoming, init), LastNamed(incoming, last);
        assert (before + [s])[..|before|] == before;
      }
    }
  }

  predicate FirstAt(ss: seq<Section>, name: string, at: nat) {
    at < |ss| && Name(ss[at]) == name && forall j :: 0 <= j < at ==> Name(ss[j]) != name
  }

  /** First-seen order is the order of first occurrences. */
  lemma {:induction false} FirstSeenOrder(ss: seq<Section>, p: nat, q: nat, at: nat, bt: nat)
    requires p < q < |FirstSeen(ss)| && FirstAt(ss, FirstSeen(ss)[p], at) && FirstAt(ss, FirstSeen(ss)[q], bt)
    ensures at < bt
  {
    hide Name;
    var init, last := ss[..|ss| - 1], |ss| - 1;
    FirstSeenNames(init);
    FirstSeenNames(ss);
    var seen := FirstSeen(init);
    if q < |seen| {
      assert Names(init, seen[p]) && Names(init, seen[q]);
      assert at < last && bt < last;
      FirstSeenOrder(init, p, q, at, bt);
    } else {
      assert Names(init, seen[p]) && !Names(init, FirstSeen(ss)[q]);
      var j :| 0 <= j < |init| && Name(init[j]) == seen[p];
      assert at <= j;
      assert forall k :: 0 <= k < |init| ==> Name(init[k]) != FirstSeen(ss)[q] && init[k] == ss[k];
    }
  }

  /** The last section of a name is one behind which the name does not recur. */
  lemma {:induction false} LastNamedIsLast(ss: seq<Section>, name: string) returns (k: nat)
    requires Names(ss, name)
    ensures k < |ss| && ss[k] == LastNamed(ss, name) && forall j :: k < j < |ss| ==> Name(ss[j]) != name
  {
    hide Name;
    var last := |ss| - 1;
    if Name(ss[last]) == name {
      k := last;
    } else {
      assert Names(ss[..last], name) by {
        var j :| 0 <= j < |ss| && Name(ss[j]) == name;
        assert ss[..last][j] == ss[j];
      }
      k := LastNamedIsLast(ss[..last], name);
    }
  }
}
