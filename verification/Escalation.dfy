/** The escalation sections the controller appends to a task body, at string level:
    how they are rendered, and when the duplicate guard finds one. */
module Escalation {
  import opened Text
  import opened BodyMerge

  const TRIGGER_HEADING := "## Trigger Cap Escalation"
  const RETRY_HEADING := "## Retry Escalation"

  predicate OneLine(s: string) { '\n' !in s }

  function Digits(n: nat): (s: string)
    ensures OneLine(s)
  {
    var digit := [("0123456789")[n % 10]];
    if n < 10 then digit else Digits(n / 10) + digit
  }

  function Decimal(n: int): (s: string)
    ensures OneLine(s)
  {
    if n < 0 then "-" + Digits(-n) else Digits(n)
  }

  /** A bullet list, one item to a line. */
  function Bullets(items: seq<string>): string {
    if items == [] then "" else "- " + items[0] + "\n" + Bullets(items[1..])
  }

  /** A heading of its own, preceded by a blank line and followed by bullets. */
  function SectionText(heading: string, items: seq<string>): string {
    "\n" + (heading + "\n" + ("\n" + Bullets(items)))
  }

  function TriggerItems(ts: string, count: int, cap: int, agent: string): seq<string> {
    ["**Timestamp:** " + ts, "**Trigger count:** " + Decimal(count), "**Max triggers:** " + Decimal(cap),
     "**Assignee:** " + agent, "**Last agent output:** " + "see `## Result` above"]
  }

  function RetryItems(ts: string, count: int, agent: string): seq<string> {
    ["**Timestamp:** " + ts, "**Attempts:** " + Decimal(count),
     "**Assignee:** " + agent, "**Last error:** " + "see agent output above"]
  }

  function TriggerSection(ts: string, count: int, cap: int, agent: string): string {
    SectionText(TRIGGER_HEADING, TriggerItems(ts, count, cap, agent))
  }

  function RetrySection(ts: string, count: int, agent: string): string {
    SectionText(RETRY_HEADING, RetryItems(ts, count, agent))
  }

  predicate OccursAt(s: string, sub: string, i: nat) {
    i + |sub| <= |s| && s[i..i + |sub|] == sub
  }

  predicate Contains(s: string, sub: string) {
    exists i :: 0 <= i <= |s| && OccursAt(s, sub, i)
  }

  /** containsEscalationSection: the heading on a line of its own, not the first. */
  predicate ContainsSection(body: string, heading: string) {
    Contains(body, "\n" + heading + "\n")
  }

  predicate IsHeadingName(heading: string) {
    OneLine(heading) && "## " <= heading && heading[|heading| - 1] != '\r'
  }

  // ------------------------------------------------ the text of a section

  lemma LineOf(s: string)
    requires OneLine(s)
    ensures IsLine(s + "\n") && Terminated(s + "\n")
  {
    var line := s + "\n";
    assert forall j :: 0 <= j < |s| ==> line[j] in s;
  }

  lemma HeadingLine(heading: string)
    requires IsHeadingName(heading)
    ensures IsLine(heading + "\n") && Terminated(heading + "\n")
    ensures HeadingName(heading + "\n") == heading && IsHeading(heading + "\n")
  {
    LineOf(heading);
    var line := heading + "\n";
    assert line[|line| - 2..][0] == heading[|heading| - 1];
    assert !HasSuffix(line, "\r\n") && HasSuffix(line, "\n");
    assert line[..|line| - 1] == heading;
  }

  lemma BulletLine(item: string)
    requires OneLine(item)
    ensures IsLine("- " + item + "\n") && Terminated("- " + item + "\n") && !IsHeading("- " + item + "\n")
  {
    LineOf("- " + item);
    var line := "- " + item + "\n";
    assert line[0] == '-';
    assert HeadingName(line) != "" ==> HeadingName(line)[0] == '-';
  }

  lemma {:induction false} BulletsPlain(items: seq<string>)
    requires forall x :: x in items ==> OneLine(x)
    ensures Plain(Bullets(items)) && Terminated(Bullets(items))
  {
    if items != [] {
      BulletsPlain(items[1..]);
      BulletLine(items[0]);
      var line := "- " + items[0] + "\n";
      SplitLineThen(line, Bullets(items[1..]));
      TerminatedConcat(line, Bullets(items[1..]));
    }
  }

  lemma BlankLine()
    ensures IsLine("\n") && Terminated("\n") && !IsHeading("\n")
  {
    assert "\n" == "" + "\n";
    LineOf("");
  }

  lemma SplitHeadingText(heading: string, content: string)
    requires IsHeadingName(heading) && Plain(content)
    ensures SplitBody(heading + "\n" + content) == Split("", [Section(heading + "\n", content)])
  {
    HeadingLine(heading);
    PlainSplit(content);
    SplitLineThen(heading + "\n", content);
  }

  /** Appended to a body, a section's text adds a blank line and exactly one section. */
  lemma SplitSectionText(heading: string, items: seq<string>)
    requires IsHeadingName(heading) && forall x :: x in items ==> OneLine(x)
    ensures SplitBody(SectionText(heading, items))
         == Split("\n", [Section(heading + "\n", "\n" + Bullets(items))])
    ensures Terminated(SectionText(heading, items))
  {
    var content := "\n" + Bullets(items);
    BlankLine();
    BulletsPlain(items);
    SplitLineThen("\n", Bullets(items));
    TerminatedConcat("\n", Bullets(items));
    SplitHeadingText(heading, content);
    TerminatedConcat(heading + "\n", content);
    SplitLineThen("\n", heading + "\n" + content);
    TerminatedConcat("\n", heading + "\n" + content);
  }

  lemma OneLineConcat(a: string, b: string)
    requires OneLine(a) && OneLine(b)
    ensures OneLine(a + b)
  {
  }

  lemma TriggerItemsOneLine(ts: string, count: int, cap: int, agent: string)
    requires OneLine(ts) && OneLine(agent)
    ensures forall x :: x in TriggerItems(ts, count, cap, agent) ==> OneLine(x)
  {
    CommonLabels();
    CountLabels();
    OutputLabels();
    hide OneLine, Decimal;
    OneLineConcat("**Timestamp:** ", ts);
    OneLineConcat("**Trigger count:** ", Decimal(count));
    OneLineConcat("**Max triggers:** ", Decimal(cap));
    OneLineConcat("**Assignee:** ", agent);
    OneLineConcat("**Last agent output:** ", "see `## Result` above");
  }

  lemma RetryItemsOneLine(ts: string, count: int, agent: string)
    requires OneLine(ts) && OneLine(agent)
    ensures forall x :: x in RetryItems(ts, count, agent) ==> OneLine(x)
  {
    CommonLabels();
    CountLabels();
    ErrorLabels();
    hide OneLine, Decimal;
    OneLineConcat("**Timestamp:** ", ts);
    OneLineConcat("**Attempts:** ", Decimal(count));
    OneLineConcat("**Assignee:** ", agent);
    OneLineConcat("**Last error:** ", "see agent output above");
  }

  lemma CommonLabels()
    ensures OneLine("**Timestamp:** ") && OneLine("**Assignee:** ")
  {
  }

  lemma CountLabels()
    ensures OneLine("**Trigger count:** ") && OneLine("**Max triggers:** ") && OneLine("**Attempts:** ")
  {
  }

  lemma OutputLabels()
    ensures OneLine("**Last agent output:** ") && OneLine("see `## Result` above")
  {
  }

  lemma ErrorLabels()
    ensures OneLine("**Last error:** ") && OneLine("see agent output above")
  {
  }

  lemma HeadingNames()
    ensures IsHeadingName(TRIGGER_HEADING) && IsHeadingName(RETRY_HEADING) && TRIGGER_HEADING != RETRY_HEADING
  {
    assert TRIGGER_HEADING[3] != RETRY_HEADING[3];
  }

  // ------------------------------------------------ the duplicate guard

  /** Section `k` has that heading line and is not the very start of the body. */
  predicate VisibleAt(m: Split, heading: string, k: nat) {
    k < |m.sections| && m.sections[k].heading == heading + "\n" && (k > 0 || m.preamble != "")
  }

  /** The heading as a line of its own behind non-empty, terminated text. */
  predicate CutAt(body: string, heading: string, before: string, after: string) {
    body == before + (heading + "\n" + after) && before != "" && Terminated(before)
  }

  lemma CutOccurs(body: string, heading: string, before: string, after: string)
    requires CutAt(body, heading, before, after)
    ensures ContainsSection(body, heading)
  {
    var sub, i := "\n" + heading + "\n", |before| - 1;
    assert body[i..i + |sub|] == sub;
    assert OccursAt(body, sub, i);
  }

  lemma Slices(s: string, i: nat, j: nat)
    requires i <= j <= |s|
    ensures s == s[..i] + (s[i..j] + s[j..])
  {
  }

  lemma OccursCut(body: string, heading: string) returns (before: string, after: string)
    requires ContainsSection(body, heading)
    ensures CutAt(body, heading, before, after)
  {
    var sub := "\n" + heading + "\n";
    var i :| 0 <= i <= |body| && OccursAt(body, sub, i);
    before, after := body[..i + 1], body[i + |sub|..];
    var hit := body[i..i + |sub|];
    assert hit[0] == '\n' && hit[1..] == heading + "\n";
    assert body[i + 1..i + |sub|] == hit[1..];
    Slices(body, i + 1, i + |sub|);
  }

  lemma CutGivesVisible(body: string, heading: string, before: string, after: string) returns (k: nat)
    requires IsHeadingName(heading) && CutAt(body, heading, before, after)
    ensures VisibleAt(SplitBody(body), heading, k)
  {
    var line := heading + "\n";
    HeadingLine(heading);
    SplitLineThen(line, after);
    SplitAppend(before, line + after);
    SplitLossless(before);
    var x, y := SplitBody(before), SplitBody(line + after);
    k := |x.sections|;
    if k == 0 {
      assert x.preamble + RenderSections([]) == x.preamble;
      assert |Join(x, y).preamble| == |before| + |y.preamble|;
    } else {
      assert Join(x, y).sections[k] == y.sections[0];
    }
  }

  /** The text up to section `k`, its heading, and the rest. */
  lemma RenderCut(m: Split, k: nat)
    requires k < |m.sections|
    ensures Render(m) == m.preamble + RenderSections(m.sections[..k])
                         + (m.sections[k].heading + (m.sections[k].content + RenderSections(m.sections[k + 1..])))
  {
    var front, back := m.sections[..k], m.sections[k..];
    assert m.sections == front + back && back[1..] == m.sections[k + 1..];
    RenderConcat(front, back);
    ConcatAssoc(m.preamble, RenderSections(front), RenderSections(back));
    ConcatAssoc(back[0].heading, back[0].content, RenderSections(back[1..]));
  }

  lemma FrontText(m: Split, k: nat)
    requires WellFormed(m) && Separable(m) && k < |m.sections| && (k > 0 || m.preamble != "")
    ensures Terminated(m.preamble + RenderSections(m.sections[..k]))
    ensures m.preamble + RenderSections(m.sections[..k]) != ""
  {
    var front := m.sections[..k];
    FrontTerminated(m, k);
    SectionsTerminated(front);
    TerminatedConcat(m.preamble, RenderSections(front));
    if k > 0 {
      assert WellFormedSection(m.sections[0]);
      SectionNotEmpty(front);
    }
    assert |m.preamble + RenderSections(front)| == |m.preamble| + |RenderSections(front)|;
  }

  lemma VisibleGivesCut(body: string, heading: string, k: nat) returns (before: string, after: string)
    requires VisibleAt(SplitBody(body), heading, k)
    ensures CutAt(body, heading, before, after)
  {
    var m := SplitBody(body);
    SplitLossless(body);
    SplitShape(body);
    RenderCut(m, k);
    FrontText(m, k);
    before := m.preamble + RenderSections(m.sections[..k]);
    after := m.sections[k].content + RenderSections(m.sections[k + 1..]);
  }

  lemma FrontTerminated(m: Split, k: nat)
    requires WellFormed(m) && Separable(m) && k < |m.sections|
    ensures Terminated(m.preamble) && TerminatedSections(m.sections[..k])
  {
    assert forall s :: s in m.sections[..k] ==> s in m.sections[..|m.sections| - 1];
  }

  lemma SectionNotEmpty(ss: seq<Section>)
    requires ss != [] && ss[0].heading != ""
    ensures RenderSections(ss) != ""
  {
    assert |RenderSections(ss)| == |ss[0].heading| + |ss[0].content| + |RenderSections(ss[1..])|;
  }

  lemma VisibleIsContained(body: string, heading: string, k: nat)
    requires VisibleAt(SplitBody(body), heading, k)
    ensures ContainsSection(body, heading)
  {
    var before, after := VisibleGivesCut(body, heading, k);
    CutOccurs(body, heading, before, after);
  }

  lemma ContainedIsVisible(body: string, heading: string) returns (k: nat)
    requires IsHeadingName(heading) && ContainsSection(body, heading)
    ensures VisibleAt(SplitBody(body), heading, k)
  {
    var before, after := OccursCut(body, heading);
    k := CutGivesVisible(body, heading, before, after);
  }

  /** The duplicate guard sees exactly the visible sections. */
  lemma ContainsIffVisible(body: string, heading: string)
    requires IsHeadingName(heading)
    ensures ContainsSection(body, heading) <==> exists k :: VisibleAt(SplitBody(body), heading, k)
  {
    hide SplitBody, ContainsSection, VisibleAt, IsHeadingName;
    if ContainsSection(body, heading) {
      var k := ContainedIsVisible(body, heading);
      assert VisibleAt(SplitBody(body), heading, k);
    } else {
      forall k ensures !VisibleAt(SplitBody(body), heading, k) {
        if VisibleAt(SplitBody(body), heading, k) {
          VisibleIsContained(body, heading, k);
        }
      }
    }
  }

  // ------------------------------------------------ one section, kept

  /** Exactly one section bears the heading, and the duplicate guard sees it. */
  predicate OnlyAt(m: Split, heading: string, k: nat) {
    VisibleAt(m, heading, k) && forall j :: 0 <= j < |m.sections| && j != k ==> Name(m.sections[j]) != heading
  }

  ghost predicate ExactlyOne(body: string, heading: string) {
    exists k :: OnlyAt(SplitBody(body), heading, k)
  }

  lemma HasTextNonempty(s: string)
    ensures HasText(s) ==> s != ""
  {
  }

  /** A merge whose incoming side lacks the heading leaves the one section where it is. */
  lemma MergeKeepsOnly(e: Split, i: Split, heading: string, k: nat)
    requires OnlyAt(e, heading, k) && IsHeadingName(heading) && !Names(i.sections, heading)
    ensures OnlyAt(MergeSplits(e, i), heading, k)
  {
    HeadingLine(heading);
    assert Name(e.sections[k]) == heading;
    MergeSections(e, i, heading);
    HasTextNonempty(i.preamble);
    hide Name, Names, Replaced, Appended, FirstSeen, HasText, IsHeadingName;
    var m := MergeSplits(e, i);
    assert m.sections[k] == e.sections[k];
  }

  /** Merging sections without the heading leaves those that bear it, and adds none. */
  lemma MergeSections(e: Split, i: Split, heading: string)
    requires !Names(i.sections, heading)
    ensures var m := MergeSplits(e, i);
            && |m.sections| >= |e.sections|
            && (forall j :: 0 <= j < |e.sections| && Name(e.sections[j]) == heading ==> m.sections[j] == e.sections[j])
            && (forall j :: 0 <= j < |m.sections| && Name(m.sections[j]) == heading ==>
                  j < |e.sections| && Name(e.sections[j]) == heading)
  {
    var names := FirstSeen(i.sections);
    FirstSeenNames(i.sections);
    AppendedMembers(e.sections, i.sections, names);
    hide Name, FirstSeen, HasText, Appended;
    var m, replaced, appended := MergeSplits(e, i), Replaced(e.sections, i.sections), Appended(e.sections, i.sections, names);
    forall j | |e.sections| <= j < |m.sections| ensures Name(m.sections[j]) != heading {
      assert m.sections[j] == appended[j - |e.sections|];
      assert Name(m.sections[j]) in names;
    }
    assert forall j :: 0 <= j < |e.sections| ==> m.sections[j] == replaced[j];
  }

  lemma JoinHeadings(x: Split, y: Split, n: nat)
    requires n < |Join(x, y).sections|
    ensures |Join(x, y).sections| == |x.sections| + |y.sections|
    ensures Join(x, y).sections[n].heading
         == if n < |x.sections| then x.sections[n].heading else y.sections[n - |x.sections|].heading
  {
  }

  /** Text without the heading, written behind, leaves the one section where it is. */
  lemma JoinKeepsOnly(x: Split, y: Split, heading: string, k: nat)
    requires OnlyAt(x, heading, k) && !Names(y.sections, heading)
    ensures OnlyAt(Join(x, y), heading, k)
  {
    var j := Join(x, y);
    JoinHeadings(x, y, k);
    forall n | 0 <= n < |j.sections| && n != k ensures Name(j.sections[n]) != heading {
      JoinHeadings(x, y, n);
      if n >= |x.sections| {
        assert Name(y.sections[n - |x.sections|]) != heading;
      } else {
        assert Name(x.sections[n]) != heading;
      }
    }
  }

  /** The heading, written behind text without it, becomes the one section. */
  lemma JoinAddsOnly(x: Split, y: Split, heading: string)
    requires IsHeadingName(heading) && !Names(x.sections, heading) && |y.sections| == 1
    requires y.sections[0].heading == heading + "\n" && y.preamble != ""
    ensures OnlyAt(Join(x, y), heading, |x.sections|)
  {
    var j, k := Join(x, y), |x.sections|;
    assert j.sections[k] == y.sections[0];
    if k == 0 { assert |j.preamble| == |x.preamble| + |y.preamble|; }
    forall n | 0 <= n < |j.sections| && n != k ensures Name(j.sections[n]) != heading {
      assert j.sections[n].heading == x.sections[n].heading;
    }
  }

  // ------------------------------------------------ what a section says

  /** The number a string of digits denotes. */
  function Reading(s: string): int {
    if s == "" then 0 else Reading(s[..|s| - 1]) * 10 + (s[|s| - 1] as int - '0' as int)
  }

  lemma {:induction false} DigitsRead(n: nat)
    ensures Digits(n) != "" && Reading(Digits(n)) == n
  {
    LastDigit(n);
    if n >= 10 {
      DigitsRead(n / 10);
      hide Digits, Reading;
      ReadingOneMore(Digits(n / 10), '0' as int + n % 10);
    } else {
      hide Digits, Reading;
      ReadingOneMore("", '0' as int + n);
    }
  }

  lemma LastDigit(n: nat)
    ensures Digits(n) == (if n < 10 then "" else Digits(n / 10)) + [('0' as int + n % 10) as char]
  {
    assert ("0123456789")[n % 10] == ('0' as int + n % 10) as char;
  }

  lemma ReadingOneMore(s: string, c: int)
    requires '0' as int <= c <= '9' as int
    ensures Reading(s + [c as char]) == Reading(s) * 10 + (c - '0' as int) && Reading("") == 0
  {
    assert (s + [c as char])[..|s|] == s;
  }

  /** Printed numbers read back. */
  lemma DecimalReads(n: int)
    ensures n >= 0 ==> Decimal(n) == Digits(n)
    ensures n < 0 ==> Decimal(n) != "" && Decimal(n)[0] == '-' && Decimal(n)[1..] == Digits(-n)
  {
  }

  function Bulleted(items: seq<string>): seq<string> {
    if items == [] then [] else ["- " + items[0]] + Bulleted(items[1..])
  }

  lemma {:induction false} BulletLines(items: seq<string>)
    requires forall x :: x in items ==> OneLine(x)
    ensures Lines(Bullets(items)) == Bulleted(items) + [""]
  {
    if items != [] {
      var item := "- " + items[0];
      assert OneLine(items[0]) && OneLine("- ");
      OneLineLines(item);
      LinesConcat(item, Bullets(items[1..]));
      BulletLines(items[1..]);
    }
  }

  /** A section is a blank line, its heading, a blank line and its bullets. */
  lemma SectionLines(heading: string, items: seq<string>)
    requires OneLine(heading) && forall x :: x in items ==> OneLine(x)
    ensures Lines(SectionText(heading, items)) == ["", heading, ""] + Bulleted(items) + [""]
  {
    hide Lines;
    var bullets := Bullets(items);
    var nothing := "";
    BulletLines(items);
    OneLineLines(nothing);
    OneLineLines(heading);
    LinesConcat(nothing, bullets);
    LinesConcat(heading, nothing + "\n" + bullets);
    LinesConcat(nothing, heading + "\n" + (nothing + "\n" + bullets));
    assert nothing + "\n" + bullets == "\n" + bullets;
    assert nothing + "\n" + (heading + "\n" + ("\n" + bullets)) == SectionText(heading, items);
    assert [""] + ([heading] + ([""] + (Bulleted(items) + [""]))) == ["", heading, ""] + Bulleted(items) + [""];
  }

  /** The trigger section gives the time, the count, the cap and the owner, in that order. */
  lemma TriggerSectionSays(ts: string, count: int, cap: int, agent: string)
    requires OneLine(ts) && OneLine(agent)
    ensures var ls := Lines(TriggerSection(ts, count, cap, agent));
            && |ls| == 9 && ls[1] == TRIGGER_HEADING
            && ls[3] == "- " + ("**Timestamp:** " + ts) && ls[4] == "- " + ("**Trigger count:** " + Decimal(count))
            && ls[5] == "- " + ("**Max triggers:** " + Decimal(cap)) && ls[6] == "- " + ("**Assignee:** " + agent)
  {
    HeadingNames();
    TriggerItemsOneLine(ts, count, cap, agent);
    hide Lines, Decimal, OneLine, SectionText;
    var items := TriggerItems(ts, count, cap, agent);
    assert OneLine(TRIGGER_HEADING) by { NameOneLine(TRIGGER_HEADING); }
    SectionLines(TRIGGER_HEADING, items);
    BulletedAt(items);
  }

  lemma RetrySectionSays(ts: string, count: int, agent: string)
    requires OneLine(ts) && OneLine(agent)
    ensures var ls := Lines(RetrySection(ts, count, agent));
            && |ls| == 8 && ls[1] == RETRY_HEADING
            && ls[3] == "- " + ("**Timestamp:** " + ts) && ls[4] == "- " + ("**Attempts:** " + Decimal(count))
            && ls[5] == "- " + ("**Assignee:** " + agent)
  {
    HeadingNames();
    RetryItemsOneLine(ts, count, agent);
    hide Lines, Decimal, OneLine, SectionText;
    var items := RetryItems(ts, count, agent);
    assert OneLine(RETRY_HEADING) by { NameOneLine(RETRY_HEADING); }
    SectionLines(RETRY_HEADING, items);
    BulletedAt(items);
  }

  lemma NameOneLine(heading: string)
    requires IsHeadingName(heading)
    ensures OneLine(heading)
  {
  }

  lemma {:induction false} BulletedAt(items: seq<string>)
    ensures |Bulleted(items)| == |items| && forall k :: 0 <= k < |items| ==> Bulleted(items)[k] == "- " + items[k]
  {
    if items != [] { BulletedAt(items[1..]); }
  }
}
