/** The result write: merge an agent result into the on-disk record, then enforce the
    trigger and retry caps. Properties are stated over whole runs of such writes. */
module ResultWriter {
  import opened Records
  import opened BodyMerge
  import opened Escalation
  import opened FrontmatterMerge

  /** One delivered result, with the time the writer's clock shows while writing it. */
  datatype Delivery = Delivery(req: Task, ts: string)

  /** What a controller is configured with. */
  datatype Config = Config(lib: Library, humans: set<string>, vault: string)

  function RestorePhase(lib: Library, existing: Frontmatter, merged: Frontmatter): Frontmatter {
    match lib.PhaseOf(existing)
    case Some(p) => merged[Phase := Str(p)]
    case None => merged
  }

  function ApplyTriggerCap(c: Config, ts: string, existing: Frontmatter, t: Task): Task {
    if !TriggerCapped(t.fm) then t
    else
      var cleared := ClearAssigneeUnlessHuman(c.humans, t.fm);
      if ContainsSection(t.body, TRIGGER_HEADING) then Task(RestorePhase(c.lib, existing, cleared), t.body)
      else Task(cleared, t.body + TriggerSection(ts, TriggerCountOf(t.fm), MaxTriggersOf(t.fm), AssigneeOf(t.fm)))
  }

  predicate RetryCapped(existing: Frontmatter, merged: Frontmatter) {
    MaxRetries in merged && RetryCountOf(existing) >= MaxRetriesOf(merged)
  }

  function ApplyRetryCap(c: Config, ts: string, existing: Frontmatter, t: Task): Task {
    if !RetryCapped(existing, t.fm) then t
    else
      var cleared := ClearAssigneeUnlessHuman(c.humans, t.fm);
      if ContainsSection(t.body, RETRY_HEADING) then Task(RestorePhase(c.lib, existing, cleared), t.body)
      else Task(cleared, t.body + RetrySection(ts, RetryCountOf(existing), AssigneeOf(t.fm)))
  }

  /** The human-review chokepoint, the spawn-notification short cut and the retry cap. */
  function AfterTriggerCap(c: Config, ts: string, existing: Frontmatter, capped: Task): Task {
    var parked := capped.(fm := ClearAssigneeIfHumanReview(c.humans, capped.fm));
    if Get(parked.fm, SpawnNotification) == Some(Bool(true)) then parked.(fm := parked.fm - {SpawnNotification})
    else ApplyRetryCap(c, ts, existing, parked)
  }

  function ApplyRetryCounter(c: Config, ts: string, existing: Frontmatter, t: Task): Task {
    if c.lib.Terminal(t.fm) then t
    else AfterTriggerCap(c, ts, existing, ApplyTriggerCap(c, ts, existing, t))
  }

  /** The merged record before the caps are enforced. */
  function MergedTask(c: Config, disk: Task, req: Task): Task {
    Task(ClearCurrentJobIfTerminal(c.lib, HealTargetVault(Merged(c.lib, disk.fm, req.fm), c.vault)),
         MergedBody(disk.body, req.body))
  }

  function ResultWrite(c: Config, disk: Task, d: Delivery): Task {
    ApplyRetryCounter(c, d.ts, disk.fm, MergedTask(c, disk, d.req))
  }

  /** buildResultModifyFn: the record written, whether a guard discard makes the kept
      state worth republishing, and whether the write took an owner away. */
  method WriteResult(c: Config, disk: Task, d: Delivery)
    returns (written: Task, rejected: seq<Decision>, escalated: bool)
    ensures written == ResultWrite(c, disk, d)
    ensures rejected == Audit(c.lib, disk.fm, d.req.fm, AUDIT_ORDER)
    ensures escalated <==> AssigneeOf(disk.fm) != "" && AssigneeOf(written.fm) == ""
  {
    var merged;
    merged, rejected := MergeFrontmatter(c.lib, disk.fm, d.req.fm);
    merged := ClearCurrentJobIfTerminal(c.lib, HealTargetVault(merged, c.vault));
    var body := MergeBody(disk.body, d.req.body);
    written := ApplyRetryCounter(c, d.ts, disk.fm, Task(merged, body));
    escalated := AssigneeOf(disk.fm) != "" && AssigneeOf(written.fm) == "";
  }

  function Run(c: Config, disk: Task, ds: seq<Delivery>): Task
    decreases |ds|
  {
    if ds == [] then disk else Run(c, ResultWrite(c, disk, ds[0]), ds[1..])
  }

  // ---------------------------------------------------------------- ownership

  /** Nobody but the operator or the controller itself moves these keys. */
  predicate AgentProof(k: Field) {
    k == TriggerCount || k == TriggerScope || k == MaxTriggers || k == Cluster
  }

  /** The keys the caps leave alone. */
  predicate CapNeutral(k: Field) {
    k != Assignee && k != PreviousAssignee && k != Phase && k != SpawnNotification
  }

  lemma TriggerCapFrame(c: Config, ts: string, existing: Frontmatter, t: Task, k: Field)
    requires CapNeutral(k)
    ensures Get(ApplyTriggerCap(c, ts, existing, t).fm, k) == Get(t.fm, k)
  {
    hide ContainsSection, TriggerSection, TriggerCapped;
  }

  lemma RetryCapFrame(c: Config, ts: string, existing: Frontmatter, t: Task, k: Field)
    requires CapNeutral(k)
    ensures Get(ApplyRetryCap(c, ts, existing, t).fm, k) == Get(t.fm, k)
  {
    hide ContainsSection, RetrySection, RetryCapped;
  }

  /** Beyond the merge, a write touches only the routing keys, the vault stamp, a
      finished job and the spawn notification. */
  lemma CapsFrame(c: Config, ts: string, existing: Frontmatter, t: Task, k: Field)
    requires CapNeutral(k)
    ensures Get(ApplyRetryCounter(c, ts, existing, t).fm, k) == Get(t.fm, k)
  {
    hide ApplyTriggerCap, ApplyRetryCap;
    var capped := ApplyTriggerCap(c, ts, existing, t);
    var parked := capped.(fm := ClearAssigneeIfHumanReview(c.humans, capped.fm));
    TriggerCapFrame(c, ts, existing, t, k);
    RetryCapFrame(c, ts, existing, parked, k);
  }

  lemma WriteFrame(c: Config, disk: Task, d: Delivery, k: Field)
    requires CapNeutral(k) && k != TargetVault && k != CurrentJob
    ensures Get(MergedTask(c, disk, d.req).fm, k) == MergedValue(c.lib, disk.fm, d.req.fm, k)
    ensures Get(ResultWrite(c, disk, d).fm, k) == MergedValue(c.lib, disk.fm, d.req.fm, k)
  {
    hide ApplyRetryCounter, MergedValue, MergedBody;
    CapsFrame(c, d.ts, disk.fm, MergedTask(c, disk, d.req), k);
  }

  /** No sequence of result writes moves an agent-proof key. */
  lemma {:induction false} OwnershipRun(c: Config, disk: Task, ds: seq<Delivery>, k: Field)
    requires AgentProof(k)
    ensures Get(Run(c, disk, ds).fm, k) == Get(disk.fm, k)
    decreases |ds|
  {
    hide ResultWrite, MergedTask;
    if ds != [] {
      WriteFrame(c, disk, ds[0], k);
      OwnershipRun(c, ResultWrite(c, disk, ds[0]), ds[1..], k);
    }
  }

  /** A terminal status is absorbing. */
  lemma {:induction false} TerminalRun(c: Config, disk: Task, ds: seq<Delivery>)
    requires c.lib.Terminal(disk.fm)
    ensures Get(Run(c, disk, ds).fm, Status) == Get(disk.fm, Status) && c.lib.Terminal(Run(c, disk, ds).fm)
    decreases |ds|
  {
    hide ResultWrite;
    if ds != [] {
      WriteFrame(c, disk, ds[0], Status);
      TerminalRun(c, ResultWrite(c, disk, ds[0]), ds[1..]);
    }
  }

  function NumberOrZero(v: Option<Value>): real {
    if v.Some? && Numeric(v.value).Some? then Numeric(v.value).value else 0.0
  }

  function Total(ds: seq<Delivery>, k: Field): real {
    if ds == [] then 0.0 else NumberOrZero(Get(ds[0].req.fm, k)) + Total(ds[1..], k)
  }

  lemma CounterMerged(lib: Library, e: Frontmatter, i: Frontmatter, k: Field)
    requires k == AgentTurns || k == InteractionCount
    requires k in e && Numeric(e[k]).Some?
    ensures MergedValue(lib, e, i, k).Some?
    ensures Numeric(MergedValue(lib, e, i, k).value) == Some(Numeric(e[k]).value + NumberOrZero(Get(i, k)))
  {
  }

  lemma CounterStep(c: Config, disk: Task, d: Delivery, k: Field)
    requires k == AgentTurns || k == InteractionCount
    requires k in disk.fm && Numeric(disk.fm[k]).Some?
    ensures var next := ResultWrite(c, disk, d).fm;
            k in next && Numeric(next[k]) == Some(Numeric(disk.fm[k]).value + NumberOrZero(Get(d.req.fm, k)))
  {
    hide ResultWrite, MergedTask, MergedValue, Numeric, NumberOrZero;
    CounterMerged(c.lib, disk.fm, d.req.fm, k);
    WriteFrame(c, disk, d, k);
  }

  /** Conservation: a numeric counter ends at its start plus every delivered number,
      whatever else the payloads carry under that key. */
  lemma {:induction false} CounterConservation(c: Config, disk: Task, ds: seq<Delivery>, k: Field)
    requires k == AgentTurns || k == InteractionCount
    requires k in disk.fm && Numeric(disk.fm[k]).Some?
    ensures k in Run(c, disk, ds).fm
    ensures Numeric(Run(c, disk, ds).fm[k]) == Some(Numeric(disk.fm[k]).value + Total(ds, k))
    decreases |ds|
  {
    hide ResultWrite, Numeric, NumberOrZero;
    if ds != [] {
      CounterStep(c, disk, ds[0], k);
      CounterConservation(c, ResultWrite(c, disk, ds[0]), ds[1..], k);
    }
  }

  // ---------------------------------------------------------------- cap stickiness

  /** The owner is nobody, or a configured human. */
  predicate Unowned(humans: set<string>, fm: Frontmatter) {
    AssigneeOf(fm) == "" || IsHuman(humans, AssigneeOf(fm))
  }

  predicate OneLineHumans(humans: set<string>) {
    forall h :: h in humans ==> OneLine(h)
  }

  /** A result that neither ends the task nor removes its ref, with a newline-terminated
      body that does not itself carry the escalation heading. */
  predicate Ordinary(c: Config, d: Delivery) {
    && !c.lib.Terminal(d.req.fm)
    && (Ref in d.req.fm ==> d.req.fm[Ref].Str?)
    && Terminated(d.req.body) && OneLine(d.ts)
    && !Names(SplitBody(d.req.body).sections, TRIGGER_HEADING)
  }

  /** A live record at its trigger cap, parked with exactly one escalation section. */
  ghost predicate Parked(c: Config, t: Task) {
    && TriggerCapped(t.fm) && !c.lib.Terminal(t.fm) && c.lib.PhaseOf(t.fm).Some?
    && Terminated(t.body) && ExactlyOne(t.body, TRIGGER_HEADING)
  }

  lemma StaysCapped(c: Config, disk: Task, d: Delivery)
    requires TriggerCapped(disk.fm) && !c.lib.Terminal(disk.fm) && Ordinary(c, d)
    ensures TriggerCapped(MergedTask(c, disk, d.req).fm) && !c.lib.Terminal(MergedTask(c, disk, d.req).fm)
    ensures TriggerCapped(ResultWrite(c, disk, d).fm) && !c.lib.Terminal(ResultWrite(c, disk, d).fm)
  {
    hide ResultWrite, MergedTask, TriggerCapped, Terminated;
    var m, w := MergedTask(c, disk, d.req), ResultWrite(c, disk, d);
    WriteFrame(c, disk, d, TriggerCount);
    WriteFrame(c, disk, d, MaxTriggers);
    WriteFrame(c, disk, d, Ref);
    WriteFrame(c, disk, d, Status);
    SameCap(disk.fm, m.fm);
    SameCap(disk.fm, w.fm);
  }

  lemma SameCap(a: Frontmatter, b: Frontmatter)
    requires Get(b, TriggerCount) == Get(a, TriggerCount) && Get(b, MaxTriggers) == Get(a, MaxTriggers)
    requires Ref in a && a[Ref].Str? ==> Ref in b && b[Ref].Str?
    requires TriggerCapped(a)
    ensures TriggerCapped(b)
  {
  }

  /** The merged body still has the one section, where it was. */
  lemma MergedStaysOnce(disk: string, incoming: string)
    requires Terminated(disk) && Terminated(incoming) && ExactlyOne(disk, TRIGGER_HEADING)
    requires !Names(SplitBody(incoming).sections, TRIGGER_HEADING)
    ensures Terminated(MergedBody(disk, incoming)) && ExactlyOne(MergedBody(disk, incoming), TRIGGER_HEADING)
    ensures ContainsSection(MergedBody(disk, incoming), TRIGGER_HEADING)
  {
    HeadingNames();
    var k :| OnlyAt(SplitBody(disk), TRIGGER_HEADING, k);
    MergeIsSectionMerge(disk, incoming);
    MergeKeepsOnly(SplitBody(disk), SplitBody(incoming), TRIGGER_HEADING, k);
    assert OnlyAt(SplitBody(MergedBody(disk, incoming)), TRIGGER_HEADING, k);
    VisibleIsContained(MergedBody(disk, incoming), TRIGGER_HEADING, k);
  }

  /** A retry section behind it does not disturb the one section. */
  lemma RetrySectionKeepsOnce(body: string, ts: string, count: int, agent: string)
    requires Terminated(body) && ExactlyOne(body, TRIGGER_HEADING) && OneLine(ts) && OneLine(agent)
    ensures Terminated(body + RetrySection(ts, count, agent))
    ensures ExactlyOne(body + RetrySection(ts, count, agent), TRIGGER_HEADING)
  {
    hide Terminated, ExactlyOne, SectionText, RetryItems, OneLine, IsHeadingName;
    HeadingNames();
    RetryItemsOneLine(ts, count, agent);
    SectionBehindKeepsOnce(body, RETRY_HEADING, RetryItems(ts, count, agent), TRIGGER_HEADING);
  }

  lemma SectionBehindKeepsOnce(body: string, heading: string, items: seq<string>, kept: string)
    requires Terminated(body) && ExactlyOne(body, kept)
    requires IsHeadingName(heading) && heading != kept && forall x :: x in items ==> OneLine(x)
    ensures Terminated(body + SectionText(heading, items))
    ensures ExactlyOne(body + SectionText(heading, items), kept)
  {
    hide SectionText, Terminated, SplitBody, IsHeadingName, OnlyAt;
    var text := SectionText(heading, items);
    SplitSectionText(heading, items);
    HeadingLine(heading);
    OnlyThatName(SplitBody(text).sections, heading, kept);
    TerminatedConcat(body, text);
    assert text == "" ==> body + text == body;
    SplitAppend(body, text);
    var k :| OnlyAt(SplitBody(body), kept, k);
    JoinKeepsOnly(SplitBody(body), SplitBody(text), kept, k);
  }

  lemma OnlyThatName(ss: seq<Section>, heading: string, other: string)
    requires |ss| == 1 && ss[0].heading == heading + "\n" && HeadingName(heading + "\n") == heading && heading != other
    ensures !Names(ss, other)
  {
    hide HeadingName;
  }

  ghost predicate RetrySectionAdded(ts: string, count: int, before: string, after: string) {
    exists agent :: OneLine(agent) && after == before + RetrySection(ts, count, agent)
  }

  lemma AfterCapOutcome(c: Config, ts: string, existing: Frontmatter, capped: Task)
    requires Unowned(c.humans, capped.fm) && OneLineHumans(c.humans)
    ensures var w := AfterTriggerCap(c, ts, existing, capped);
            && Unowned(c.humans, w.fm)
            && (w.body == capped.body || RetrySectionAdded(ts, RetryCountOf(existing), capped.body, w.body))
    ensures c.lib.PhaseOf(existing).Some? && Get(capped.fm, Phase) == Some(Str(c.lib.PhaseOf(existing).value)) ==>
      Get(AfterTriggerCap(c, ts, existing, capped).fm, Phase) == Get(capped.fm, Phase)
  {
    hide RetrySection, ContainsSection, RetryCapped;
    var parked := capped.(fm := ClearAssigneeIfHumanReview(c.humans, capped.fm));
    assert Unowned(c.humans, parked.fm) && Get(parked.fm, Phase) == Get(capped.fm, Phase);
    assert OneLine(AssigneeOf(parked.fm));
  }

  /** What the caps leave of a capped record whose body shows the section. */
  lemma CappedOutcome(c: Config, ts: string, existing: Frontmatter, t: Task)
    requires !c.lib.Terminal(t.fm) && TriggerCapped(t.fm) && ContainsSection(t.body, TRIGGER_HEADING)
    requires c.lib.PhaseOf(existing).Some? && c.lib.CanonicalPhases() && OneLineHumans(c.humans)
    ensures var w := ApplyRetryCounter(c, ts, existing, t);
            && Unowned(c.humans, w.fm)
            && c.lib.PhaseOf(w.fm) == c.lib.PhaseOf(existing)
            && (w.body == t.body || RetrySectionAdded(ts, RetryCountOf(existing), t.body, w.body))
  {
    hide AfterTriggerCap, RetrySectionAdded, ContainsSection, TriggerSection;
    AfterCapOutcome(c, ts, existing, ApplyTriggerCap(c, ts, existing, t));
  }

  lemma StickyStep(c: Config, disk: Task, d: Delivery)
    requires Parked(c, disk) && Ordinary(c, d) && c.lib.CanonicalPhases() && OneLineHumans(c.humans)
    ensures Parked(c, ResultWrite(c, disk, d)) && Unowned(c.humans, ResultWrite(c, disk, d).fm)
    ensures c.lib.PhaseOf(ResultWrite(c, disk, d).fm) == c.lib.PhaseOf(disk.fm)
  {
    hide ApplyRetryCounter, TriggerCapped, MergedTask, RetrySectionAdded, ExactlyOne, Terminated, ContainsSection;
    var m := MergedTask(c, disk, d.req);
    StaysCapped(c, disk, d);
    MergedOnce(c, disk, d);
    CappedOutcome(c, d.ts, disk.fm, m);
    RetrySectionMayFollow(d.ts, RetryCountOf(disk.fm), m.body, ResultWrite(c, disk, d).body);
  }

  lemma MergedOnce(c: Config, disk: Task, d: Delivery)
    requires Parked(c, disk) && Ordinary(c, d)
    ensures var m := MergedTask(c, disk, d.req);
            Terminated(m.body) && ExactlyOne(m.body, TRIGGER_HEADING) && ContainsSection(m.body, TRIGGER_HEADING)
  {
    hide MergedBody, Merged, TriggerCapped, Terminated, ExactlyOne, ContainsSection;
    MergedStaysOnce(disk.body, d.req.body);
  }

  /** The first write at the cap parks the record: it adds the one section and takes
      the task away from its agent. */
  lemma FirstEscalation(c: Config, disk: Task, d: Delivery)
    requires TriggerCapped(disk.fm) && !c.lib.Terminal(disk.fm) && Ordinary(c, d) && OneLineHumans(c.humans)
    requires Terminated(disk.body) && !Names(SplitBody(disk.body).sections, TRIGGER_HEADING)
    requires OneLine(AssigneeOf(Merged(c.lib, disk.fm, d.req.fm)))
    ensures var w := ResultWrite(c, disk, d);
            && Terminated(w.body) && ExactlyOne(w.body, TRIGGER_HEADING)
            && TriggerCapped(w.fm) && !c.lib.Terminal(w.fm) && Unowned(c.humans, w.fm)
  {
    hide AfterTriggerCap, TriggerCapped, MergedTask, RetrySectionAdded, TriggerSection, ExactlyOne,
      Terminated, ContainsSection;
    var m := FirstMerge(c, disk, d);
    var text := TriggerSection(d.ts, TriggerCountOf(m.fm), MaxTriggersOf(m.fm), AssigneeOf(m.fm));
    TriggerSectionAddsOne(m.body, d.ts, TriggerCountOf(m.fm), MaxTriggersOf(m.fm), AssigneeOf(m.fm));
    AfterCapOutcome(c, d.ts, disk.fm, ApplyTriggerCap(c, d.ts, disk.fm, m));
    RetrySectionMayFollow(d.ts, RetryCountOf(disk.fm), m.body + text, ResultWrite(c, disk, d).body);
  }

  lemma RetrySectionMayFollow(ts: string, count: int, before: string, after: string)
    requires Terminated(before) && ExactlyOne(before, TRIGGER_HEADING) && OneLine(ts)
    requires after == before || RetrySectionAdded(ts, count, before, after)
    ensures Terminated(after) && ExactlyOne(after, TRIGGER_HEADING)
  {
    hide Terminated, ExactlyOne, RetrySection;
    if after != before {
      var agent :| OneLine(agent) && after == before + RetrySection(ts, count, agent);
      RetrySectionKeepsOnce(before, ts, count, agent);
    }
  }

  lemma FirstMerge(c: Config, disk: Task, d: Delivery) returns (m: Task)
    requires TriggerCapped(disk.fm) && !c.lib.Terminal(disk.fm) && Ordinary(c, d)
    requires Terminated(disk.body) && !Names(SplitBody(disk.body).sections, TRIGGER_HEADING)
    requires OneLine(AssigneeOf(Merged(c.lib, disk.fm, d.req.fm)))
    ensures m == MergedTask(c, disk, d.req) && OneLine(AssigneeOf(m.fm))
    ensures TriggerCapped(m.fm) && !c.lib.Terminal(m.fm)
    ensures TriggerCapped(ResultWrite(c, disk, d).fm) && !c.lib.Terminal(ResultWrite(c, disk, d).fm)
    ensures Terminated(m.body) && !Names(SplitBody(m.body).sections, TRIGGER_HEADING)
    ensures !ContainsSection(m.body, TRIGGER_HEADING)
  {
    hide ResultWrite, TriggerCapped, Merged, MergedBody, Terminated, ContainsSection, Names, OneLine;
    m := MergedTask(c, disk, d.req);
    StaysCapped(c, disk, d);
    HeadingNames();
    MergedStaysWithout(disk.body, d.req.body, TRIGGER_HEADING);
  }

  lemma MergedStaysWithout(disk: string, incoming: string, heading: string)
    requires Terminated(disk) && Terminated(incoming) && IsHeadingName(heading)
    requires !Names(SplitBody(disk).sections, heading) && !Names(SplitBody(incoming).sections, heading)
    ensures Terminated(MergedBody(disk, incoming))
    ensures !Names(SplitBody(MergedBody(disk, incoming)).sections, heading)
    ensures !ContainsSection(MergedBody(disk, incoming), heading)
  {
    hide Terminated, ContainsSection, MergedBody, MergeSplits, SplitBody, IsHeadingName;
    var body := MergedBody(disk, incoming);
    MergeIsSectionMerge(disk, incoming);
    MergeMembers(SplitBody(disk), SplitBody(incoming));
    assert forall s :: s in SplitBody(body).sections ==> Name(s) != heading;
    UnnamedIsUnseen(body, heading);
  }

  lemma UnnamedIsUnseen(body: string, heading: string)
    requires IsHeadingName(heading) && !Names(SplitBody(body).sections, heading)
    ensures !ContainsSection(body, heading)
  {
    hide SplitBody, ContainsSection, IsHeadingName;
    HeadingLine(heading);
    ContainsIffVisible(body, heading);
  }

  lemma TriggerSectionAddsOne(body: string, ts: string, count: int, cap: int, agent: string)
    requires Terminated(body) && !Names(SplitBody(body).sections, TRIGGER_HEADING) && OneLine(ts) && OneLine(agent)
    ensures Terminated(body + TriggerSection(ts, count, cap, agent))
    ensures ExactlyOne(body + TriggerSection(ts, count, cap, agent), TRIGGER_HEADING)
  {
    hide Terminated, SectionText, TriggerItems, OneLine, IsHeadingName, ExactlyOne, Names;
    HeadingNames();
    TriggerItemsOneLine(ts, count, cap, agent);
    SectionAddsOne(body, TRIGGER_HEADING, TriggerItems(ts, count, cap, agent));
  }

  /** A section written behind a body without its heading is the one such section. */
  lemma SectionAddsOne(body: string, heading: string, items: seq<string>)
    requires Terminated(body) && IsHeadingName(heading) && !Names(SplitBody(body).sections, heading)
    requires forall x :: x in items ==> OneLine(x)
    ensures Terminated(body + SectionText(heading, items))
    ensures ExactlyOne(body + SectionText(heading, items), heading)
  {
    hide Terminated, SectionText, IsHeadingName, Names;
    var text := SectionText(heading, items);
    SplitSectionText(heading, items);
    TerminatedConcat(body, text);
    assert text == "" ==> body + text == body;
    SplitAppend(body, text);
    JoinAddsOnly(SplitBody(body), SplitBody(text), heading);
  }

  lemma SectionBehindKeepsWithout(body: string, heading: string, items: seq<string>, other: string)
    requires Terminated(body) && IsHeadingName(heading) && heading != other && !Names(SplitBody(body).sections, other)
    requires forall x :: x in items ==> OneLine(x)
    ensures Terminated(body + SectionText(heading, items))
    ensures !Names(SplitBody(body + SectionText(heading, items)).sections, other)
  {
    hide Terminated, SectionText, SplitBody;
    var text := SectionText(heading, items);
    SplitSectionText(heading, items);
    HeadingLine(heading);
    TerminatedConcat(body, text);
    assert text == "" ==> body + text == body;
    SplitAppend(body, text);
    var x, y := SplitBody(body), SplitBody(text);
    forall n | 0 <= n < |Join(x, y).sections| ensures Name(Join(x, y).sections[n]) != other {
      JoinHeadings(x, y, n);
      if n < |x.sections| { assert Name(x.sections[n]) != other; }
    }
  }

  /** Cap stickiness over whole runs: however many further results arrive, the parked
      record keeps exactly one escalation section and its phase, and no agent owns it. */
  lemma {:induction false} StickyRun(c: Config, disk: Task, ds: seq<Delivery>)
    requires Parked(c, disk) && c.lib.CanonicalPhases() && OneLineHumans(c.humans)
    requires forall d :: d in ds ==> Ordinary(c, d)
    ensures Parked(c, Run(c, disk, ds))
    ensures c.lib.PhaseOf(Run(c, disk, ds).fm) == c.lib.PhaseOf(disk.fm)
    ensures ds != [] || Unowned(c.humans, disk.fm) ==> Unowned(c.humans, Run(c, disk, ds).fm)
    decreases |ds|
  {
    hide ResultWrite, Parked, Ordinary;
    if ds != [] {
      StickyStep(c, disk, ds[0]);
      StickyRun(c, ResultWrite(c, disk, ds[0]), ds[1..]);
    }
  }
}
