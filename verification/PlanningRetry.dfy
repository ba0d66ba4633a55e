/** The planning-retry gate: a failed pr-review planning result either bumps a
    compare-and-set counter and hands the task a fresh identifier, or, at the cap,
    escalates once. A delivery is two steps, a lookup and an atomic write; other
    deliveries and phase changes may happen in between. */
module PlanningRetry {
  import opened Records
  import opened BodyMerge
  import opened Text
  import opened Escalation
  import opened ResultWriter

  const MAX_PLANNING_RETRIES := 3

  function CountOf(fm: Frontmatter): int { IntOf(Get(fm, PlanningRetryCount), 0) }

  function IdOf(fm: Frontmatter): string { StringOf(fm, TaskIdentifier) }

  predicate InPlanning(c: Config, fm: Frontmatter) {
    c.lib.PhaseOf(fm) == Some("planning")
  }

  predicate HasLine(body: string, line: string) {
    exists l :: l in Lines(body) && Trim(l) == line
  }

  predicate HasLineStarting(body: string, prefix: string) {
    exists l :: l in Lines(body) && prefix <= Trim(l)
  }

  function Closed(body: string): string {
    if body != "" && !HasSuffix(body, "\n") then body + "\n" else body
  }

  const PROGRESS := "## Progress"

  /** strings.Contains(s, "## Progress") */
  predicate Mentions(s: string) {
    exists i :: 0 <= i <= |s| && OccursAt(s, PROGRESS, i)
  }

  /** appendProgressLine */
  function AppendProgress(body: string, line: string): string {
    var closed := Closed(body);
    if Mentions(closed) then closed + line + "\n"
    else closed + PROGRESS + "\n\n" + line + "\n"
  }

  // ---------------------------------------------------------------- the two atomic writes

  datatype Written = Written(task: Task, happened: bool)

  /** buildRetryModifyFn: bump `count`, unless the record has moved on since the lookup. */
  function RetryWrite(c: Config, count: int, line: string, minted: string, t: Task): Written {
    if CountOf(t.fm) != count || !InPlanning(c, t.fm) || HasLine(t.body, line) then Written(t, false)
    else
      var fm := t.fm[PlanningRetryCount := Int(count + 1)][Phase := Str("planning")][TaskIdentifier := Str(minted)];
      Written(Task(HealTargetVault(fm, c.vault), AppendProgress(t.body, line)), true)
  }

  /** buildEscalationModifyFn: hand the record to a human; `happened` is whether the
      caller then posts its comment. */
  function EscalateWrite(c: Config, line: string, t: Task): Written {
    if !InPlanning(c, t.fm) then Written(t, false)
    else
      var first := !HasLineStarting(t.body, "retry 3/3:");
      var fm := ClearAssigneeIfHumanReview(c.humans, t.fm[Phase := Str("human_review")]);
      Written(Task(HealTargetVault(fm, c.vault), if first then AppendProgress(t.body, line) else t.body), first)
  }

  // ---------------------------------------------------------------- the protocol

  /** A delivery between its lookup and its write: the identifier it was addressed to
      and the (clamped) count it saw. */
  datatype Pending = Pending(id: string, count: int)

  /** `bumped`, `escalations` and `comments` record what the gate has done so far. */
  datatype State = State(
    task: Task, pending: map<nat, Pending>, seen: set<string>,
    bumped: seq<string>, escalations: nat, comments: nat)

  datatype Event =
    | Deliver(handler: nat, id: string)
    | Commit(handler: nat, minted: string, line: string)
    | Fail(handler: nat)
    | Leave(phase: string)

  /** Identifiers are minted afresh, nobody is addressed by a recorded predecessor, and
      others only ever move the task out of planning. */
  predicate Enabled(c: Config, s: State, e: Event) {
    match e
    case Deliver(h, id) =>
      h !in s.pending && id != "" && id != StringOf(s.task.fm, TaskIdentifierPrevious)
    case Commit(h, minted, _) => h in s.pending && minted !in s.seen
    case Fail(h) => h in s.pending
    case Leave(p) => c.lib.phase(p) != Some("planning")
  }

  function Clamp(n: int): int { if n < 0 then 0 else n }

  function Step(c: Config, s: State, e: Event): State
    requires Enabled(c, s, e)
  {
    match e
    case Deliver(h, id) =>
      if IdOf(s.task.fm) == id && InPlanning(c, s.task.fm) then
        s.(pending := s.pending[h := Pending(id, Clamp(CountOf(s.task.fm)))], seen := s.seen + {id})
      else s.(seen := s.seen + {id})
    case Commit(h, minted, line) =>
      var p := s.pending[h];
      var rest := s.(pending := s.pending - {h});
      if p.count >= MAX_PLANNING_RETRIES then
        var w := EscalateWrite(c, line, s.task);
        rest.(task := w.task,
              escalations := s.escalations + (if InPlanning(c, s.task.fm) then 1 else 0),
              comments := s.comments + (if w.happened then 1 else 0))
      else
        var w := RetryWrite(c, p.count, line, minted, s.task);
        if w.happened then rest.(task := w.task, bumped := s.bumped + [p.id], seen := s.seen + {minted})
        else rest
    case Fail(h) => s.(pending := s.pending - {h})
    case Leave(p) => s.(task := s.task.(fm := s.task.fm[Phase := Str(p)]))
  }

  predicate Schedule(c: Config, s: State, events: seq<Event>)
    decreases |events|
  {
    events == [] || (Enabled(c, s, events[0]) && Schedule(c, Step(c, s, events[0]), events[1..]))
  }

  function Play(c: Config, s: State, events: seq<Event>): State
    requires Schedule(c, s, events)
    decreases |events|
  {
    if events == [] then s else Play(c, Step(c, s, events[0]), events[1..])
  }

  predicate Init(s: State, start: int) {
    && 0 <= start <= MAX_PLANNING_RETRIES && CountOf(s.task.fm) == start
    && s.pending == map[] && s.bumped == [] && s.escalations == 0 && s.comments == 0
    && IdOf(s.task.fm) in s.seen
  }

  // ---------------------------------------------------------------- the invariant

  predicate PendingOk(s: State, p: Pending) {
    && 0 <= p.count <= CountOf(s.task.fm)
    && (p.id == IdOf(s.task.fm) || p.id in s.bumped)
    && (p.id in s.bumped ==> p.count < CountOf(s.task.fm))
  }

  predicate Distinct(ids: seq<string>) {
    forall i, j :: 0 <= i < j < |ids| ==> ids[i] != ids[j]
  }

  predicate Inv(c: Config, start: int, s: State) {
    && 0 <= start && CountOf(s.task.fm) == start + |s.bumped| <= MAX_PLANNING_RETRIES
    && Distinct(s.bumped) && IdOf(s.task.fm) !in s.bumped
    && IdOf(s.task.fm) in s.seen && (forall id :: id in s.bumped ==> id in s.seen)
    && (forall h :: h in s.pending ==> PendingOk(s, s.pending[h]))
    && s.comments <= s.escalations <= 1
    && (s.escalations == 1 ==> !InPlanning(c, s.task.fm))
  }

  /** human_review is no spelling of planning. */
  predicate PhasesDiffer(c: Config) {
    c.lib.phase("human_review") != Some("planning")
  }

  lemma RetryWriteEffect(c: Config, count: int, line: string, minted: string, t: Task)
    requires RetryWrite(c, count, line, minted, t).happened
    ensures var w := RetryWrite(c, count, line, minted, t).task;
            CountOf(t.fm) == count && InPlanning(c, t.fm) && CountOf(w.fm) == count + 1 && IdOf(w.fm) == minted
  {
    hide HasLine, AppendProgress;
  }

  lemma EscalateWriteEffect(c: Config, line: string, t: Task)
    requires InPlanning(c, t.fm) && PhasesDiffer(c)
    ensures var w := EscalateWrite(c, line, t).task;
            CountOf(w.fm) == CountOf(t.fm) && IdOf(w.fm) == IdOf(t.fm) && !InPlanning(c, w.fm)
  {
    hide HasLineStarting, AppendProgress;
  }

  lemma BumpKeepsInv(c: Config, start: int, s: State, h: nat, minted: string, line: string)
    requires Inv(c, start, s) && h in s.pending && minted !in s.seen
    requires s.pending[h].count < MAX_PLANNING_RETRIES
    requires RetryWrite(c, s.pending[h].count, line, minted, s.task).happened
    ensures Inv(c, start, Step(c, s, Commit(h, minted, line)))
  {
    hide RetryWrite, InPlanning;
    var p := s.pending[h];
    RetryWriteEffect(c, p.count, line, minted, s.task);
    assert PendingOk(s, p);
    assert p.id == IdOf(s.task.fm);
    var s' := Step(c, s, Commit(h, minted, line));
    forall k | k in s'.pending ensures PendingOk(s', s'.pending[k]) {
      assert PendingOk(s, s.pending[k]);
    }
  }

  lemma EscalationKeepsInv(c: Config, start: int, s: State, h: nat, minted: string, line: string)
    requires Inv(c, start, s) && h in s.pending && minted !in s.seen && PhasesDiffer(c)
    requires s.pending[h].count >= MAX_PLANNING_RETRIES
    ensures Inv(c, start, Step(c, s, Commit(h, minted, line)))
  {
    if InPlanning(c, s.task.fm) {
      EscalateWriteEffect(c, line, s.task);
    } else {
      assert EscalateWrite(c, line, s.task) == Written(s.task, false);
    }
    hide EscalateWrite, InPlanning;
    var s' := Step(c, s, Commit(h, minted, line));
    forall k | k in s'.pending ensures PendingOk(s', s'.pending[k]) {
      assert PendingOk(s, s.pending[k]);
    }
  }

  lemma StepKeepsInv(c: Config, start: int, s: State, e: Event)
    requires Inv(c, start, s) && Enabled(c, s, e) && PhasesDiffer(c)
    ensures Inv(c, start, Step(c, s, e))
  {
    match e
    case Commit(h, minted, line) =>
      if s.pending[h].count >= MAX_PLANNING_RETRIES {
        EscalationKeepsInv(c, start, s, h, minted, line);
      } else if RetryWrite(c, s.pending[h].count, line, minted, s.task).happened {
        BumpKeepsInv(c, start, s, h, minted, line);
      } else {
        QuietKeepsInv(c, start, s, e);
      }
    case _ => QuietKeepsInv(c, start, s, e);
  }

  lemma QuietKeepsInv(c: Config, start: int, s: State, e: Event)
    requires Inv(c, start, s) && Enabled(c, s, e)
    requires e.Commit? ==> s.pending[e.handler].count < MAX_PLANNING_RETRIES
    requires e.Commit? ==> !RetryWrite(c, s.pending[e.handler].count, e.line, e.minted, s.task).happened
    ensures Inv(c, start, Step(c, s, e))
  {
    hide RetryWrite, EscalateWrite;
    var s' := Step(c, s, e);
    assert CountOf(s'.task.fm) == CountOf(s.task.fm) && IdOf(s'.task.fm) == IdOf(s.task.fm);
    forall h | h in s'.pending ensures PendingOk(s', s'.pending[h]) {
      if h in s.pending { assert PendingOk(s, s.pending[h]); }
    }
  }

  // ---------------------------------------------------------------- whole runs

  lemma {:induction false} PlayKeepsInv(c: Config, start: int, s: State, events: seq<Event>)
    requires Inv(c, start, s) && Schedule(c, s, events) && PhasesDiffer(c)
    ensures Inv(c, start, Play(c, s, events))
    decreases |events|
  {
    hide Inv, Step, Enabled;
    if events != [] {
      StepKeepsInv(c, start, s, events[0]);
      PlayKeepsInv(c, start, Step(c, s, events[0]), events[1..]);
    }
  }

  /** Whole-run bound: whatever is delivered, redelivered, interleaved or lost, the
      counter moves by one per bump and stops at three, every identifier bumps at most
      once, and at most one escalation and one comment follow. */
  lemma PlanningRetryBound(c: Config, start: int, s: State, events: seq<Event>)
    requires Init(s, start) && Schedule(c, s, events) && PhasesDiffer(c)
    ensures var end := Play(c, s, events);
            && CountOf(end.task.fm) == start + |end.bumped| <= 3
            && Distinct(end.bumped) && IdOf(end.task.fm) !in end.bumped
            && end.comments <= end.escalations <= 1
  {
    PlayKeepsInv(c, start, s, events);
  }

  /** The gate never touches a task that is not in planning, so it cannot bring one back. */
  lemma GateOnlyInPlanning(c: Config, s: State, e: Event)
    requires Enabled(c, s, e) && !e.Leave? && !InPlanning(c, s.task.fm)
    ensures Step(c, s, e).task == s.task
  {
  }

  /** The write an undisturbed delivery to this record performs. */
  function Handle(c: Config, t: Task, line: string, minted: string): Written {
    if Clamp(CountOf(t.fm)) >= MAX_PLANNING_RETRIES then EscalateWrite(c, line, t)
    else RetryWrite(c, Clamp(CountOf(t.fm)), line, minted, t)
  }

  /** It makes progress exactly when the stored count is not negative (and that very
      retry line is not there yet): the lookup clamps a negative count, the write does
      not, so such a record is never retried and never escalated. */
  lemma ProgressExact(c: Config, t: Task, line: string, minted: string)
    requires InPlanning(c, t.fm) && PhasesDiffer(c)
    ensures Handle(c, t, line, minted).task.fm != t.fm
       <==> CountOf(t.fm) >= 0 && (CountOf(t.fm) < MAX_PLANNING_RETRIES ==> !HasLine(t.body, line))
  {
    hide HasLine, AppendProgress, HasLineStarting;
    if CountOf(t.fm) >= MAX_PLANNING_RETRIES {
      EscalateWriteEffect(c, line, t);
    } else if CountOf(t.fm) >= 0 && !HasLine(t.body, line) {
      RetryWriteEffect(c, CountOf(t.fm), line, minted, t);
    }
  }

  // ---------------------------------------------------------------- the idempotency mark

  lemma LineStartingConcat(a: string, b: string, prefix: string)
    ensures HasLineStarting(a + "\n" + b, prefix) <==> HasLineStarting(a, prefix) || HasLineStarting(b, prefix)
  {
    LinesConcat(a, b);
  }

  /** A line that starts with a visible character other than the prefix's is not it. */
  lemma OtherLine(line: string, prefix: string)
    requires '\n' !in line && prefix != "" && !IsSpace(prefix[0])
    requires line != "" ==> !IsSpace(line[0]) && line[0] != prefix[0]
    ensures !HasLineStarting(line, prefix)
  {
    OneLineLines(line);
    TrimRightPrefix(line);
  }

  function Item(line: string): string { line + "\n" }

  function NewProgress(line: string): string { PROGRESS + "\n\n" + Item(line) }

  lemma AppendedText(body: string, line: string)
    ensures AppendProgress(body, line) == Closed(body) + Item(line) || AppendProgress(body, line) == Closed(body) + NewProgress(line)
  {
    assert Closed(body) + line + "\n" == Closed(body) + Item(line);
    assert Closed(body) + PROGRESS + "\n\n" + line + "\n" == Closed(body) + NewProgress(line);
  }

  lemma TextBehindClosed(body: string, tail: string, prefix: string)
    requires prefix != "" && !IsSpace(prefix[0])
    ensures HasLineStarting(Closed(body) + tail, prefix) <==> HasLineStarting(body, prefix) || HasLineStarting(tail, prefix)
  {
    hide HasLineStarting;
    OtherLine("", prefix);
    if body == "" {
      assert Closed(body) + tail == tail;
    } else {
      var front := if HasSuffix(body, "\n") then body[..|body| - 1] else body;
      assert Closed(body) + tail == front + "\n" + tail;
      LineStartingConcat(front, tail, prefix);
      LineStartingConcat(front, "", prefix);
      assert HasSuffix(body, "\n") ==> body == front + "\n" + "";
    }
  }

  lemma AddedTextUnmarked(line: string, prefix: string)
    requires '\n' !in line && prefix != "" && !IsSpace(prefix[0]) && prefix[0] != '#'
    requires line != "" && !IsSpace(line[0]) && line[0] != prefix[0]
    ensures !HasLineStarting(Item(line), prefix) && !HasLineStarting(NewProgress(line), prefix)
  {
    hide HasLineStarting, IsSpace;
    OtherLine(line, prefix);
    OtherLine("", prefix);
    LineStartingConcat(line, "", prefix);
    assert Item(line) == line + "\n" + "";
    assert !IsSpace('#') by { SpaceIsNoHash(); }
    OtherLine(PROGRESS, prefix);
    LineStartingConcat("", Item(line), prefix);
    LineStartingConcat(PROGRESS, "" + "\n" + Item(line), prefix);
    assert NewProgress(line) == PROGRESS + "\n" + ("" + "\n" + Item(line));
  }

  lemma SpaceIsNoHash()
    ensures !IsSpace('#')
  {
  }

  /** The escalation line is written as a list item, and the idempotency check looks for
      a line starting with the mark itself: the gate's own lines are never seen by it. */
  lemma EscalationMarkUnseen(body: string, text: string)
    requires '\n' !in text
    ensures HasLineStarting(AppendProgress(body, "- retry 3/3: " + text), "retry 3/3:") <==> HasLineStarting(body, "retry 3/3:")
  {
    hide HasLineStarting, AppendProgress, Item, NewProgress, Closed;
    var mark, line := "retry 3/3:", "- retry 3/3: " + text;
    assert line[0] == '-';
    AddedTextUnmarked(line, mark);
    AppendedText(body, line);
    TextBehindClosed(body, Item(line), mark);
    TextBehindClosed(body, NewProgress(line), mark);
  }

  /** So a second escalation is held off by the phase alone: put back into planning with
      its count still at the cap, the record is escalated and commented on again. */
  lemma EscalatesAgain(c: Config, t: Task, text: string, fm: Frontmatter, again: string)
    requires '\n' !in text && InPlanning(c, fm) && EscalateWrite(c, "- retry 3/3: " + text, t).happened
    ensures EscalateWrite(c, again, Task(fm, EscalateWrite(c, "- retry 3/3: " + text, t).task.body)).happened
  {
    hide HasLineStarting, AppendProgress;
    EscalationMarkUnseen(t.body, text);
  }

  // ---------------------------------------------------------------- what the two writes do

  /** Escalating a task in planning hands it to a human: the phase is human_review, no
      agent owns it, a cleared owner is on record, and nothing else moves but the vault
      stamp. The body gains the line, and the caller posts its comment, exactly when no
      line bears the mark. */
  lemma EscalationEffect(c: Config, line: string, t: Task, k: Field)
    requires InPlanning(c, t.fm)
    ensures var w, owner := EscalateWrite(c, line, t), AssigneeOf(t.fm);
            && Get(w.task.fm, k)
               == (if k == Phase then Some(Str("human_review"))
                   else if k == Assignee && !IsHuman(c.humans, owner) then Some(Str(""))
                   else if k == PreviousAssignee && owner != "" && !IsHuman(c.humans, owner) then Some(Str(owner))
                   else if k == TargetVault && k !in t.fm then Some(Str(c.vault))
                   else Get(t.fm, k))
            && (w.happened <==> forall l :: l in Lines(t.body) ==> !("retry 3/3:" <= Trim(l)))
            && w.task.body == (if w.happened then AppendProgress(t.body, line) else t.body)
  {
    hide AppendProgress, Trim, Lines;
  }

  /** A bump counts one more retry and retires the identifier; the task stays in planning,
      nothing else moves but the vault stamp, and the body gains the line. It happens
      exactly when the record is as the lookup saw it and the line is new. */
  lemma BumpEffect(c: Config, count: int, line: string, minted: string, t: Task, k: Field)
    ensures var w := RetryWrite(c, count, line, minted, t);
            && (w.happened <==> CountOf(t.fm) == count && InPlanning(c, t.fm)
                                && forall l :: l in Lines(t.body) ==> Trim(l) != line)
            && (!w.happened ==> w.task == t)
            && (w.happened ==>
                  && Get(w.task.fm, k)
                     == (if k == PlanningRetryCount then Some(Int(count + 1))
                         else if k == Phase then Some(Str("planning"))
                         else if k == TaskIdentifier then Some(Str(minted))
                         else if k == TargetVault && k !in t.fm then Some(Str(c.vault))
                         else Get(t.fm, k))
                  && w.task.body == AppendProgress(t.body, line))
  {
    hide AppendProgress, Trim, Lines;
  }

  /** A delivery proceeds exactly when it is addressed to the record's own identifier and
      the task is in planning; it then remembers the count, a negative one as 0. */
  lemma DeliveryExact(c: Config, s: State, h: nat, id: string)
    requires Enabled(c, s, Deliver(h, id))
    ensures var s' := Step(c, s, Deliver(h, id));
            && s'.task == s.task
            && (h in s'.pending <==> StringOf(s.task.fm, TaskIdentifier) == id && c.lib.PhaseOf(s.task.fm) == Some("planning"))
            && (h in s'.pending ==> s'.pending[h] == Pending(id, if CountOf(s.task.fm) < 0 then 0 else CountOf(s.task.fm)))
  {
  }

  // ---------------------------------------------------------------- the progress line

  /** The lines of a body, without the empty one behind a final newline. */
  function Front(body: string): seq<string> {
    if body == "" then [] else if HasSuffix(body, "\n") then Lines(body[..|body| - 1]) else Lines(body)
  }

  lemma ClosedLines(body: string, tail: string)
    ensures Lines(Closed(body) + tail) == Front(body) + Lines(tail)
  {
    hide Lines;
    if body == "" {
      assert Closed(body) + tail == tail;
    } else {
      var front := if HasSuffix(body, "\n") then body[..|body| - 1] else body;
      assert Closed(body) + tail == front + "\n" + tail;
      LinesConcat(front, tail);
    }
  }

  /** Every line of the body stays; behind them comes the new one, under a Progress heading
      of its own where the body mentions none. */
  lemma ProgressLines(body: string, line: string)
    requires '\n' !in line
    ensures Lines(AppendProgress(body, line))
         == Front(body) + (if Mentions(Closed(body)) then [] else [PROGRESS, ""]) + [line, ""]
  {
    hide Lines, Closed, Front, Mentions;
    var item := line + "\n" + "";
    LinesConcat(line, "");
    OneLineLines(line);
    OneLineLines("");
    assert item == line + "\n" && Lines(item) == [line, ""];
    if Mentions(Closed(body)) {
      ClosedLines(body, item);
      assert AppendProgress(body, line) == Closed(body) + item;
    } else {
      var headed := PROGRESS + "\n" + ("" + "\n" + item);
      LinesConcat("", item);
      LinesConcat(PROGRESS, "" + "\n" + item);
      OneLineLines(PROGRESS);
      ClosedLines(body, headed);
      assert AppendProgress(body, line) == Closed(body) + headed;
      assert Front(body) + ([PROGRESS] + ([""] + [line, ""])) == Front(body) + [PROGRESS, ""] + [line, ""];
    }
  }

  predicate IsProgress(line: string) { line == PROGRESS }

  /** A line of a text occurs in it, the first one at its start. */
  lemma {:induction false} LineOccurs(s: string, k: nat) returns (i: nat)
    requires k < |Lines(s)|
    ensures OccursAt(s, Lines(s)[k], i) && (k == 0 ==> i == 0)
  {
    i := 0;
    if s != "" {
      var rest := s[1..];
      LinesStep(s);
      assert s == [s[0]] + rest;
      hide Lines;
      if s[0] != '\n' && k == 0 {
        var j := LineOccurs(rest, 0);
        OccursFirst(s[0], rest, Lines(rest)[0]);
      } else if k > 0 {
        var m := if s[0] == '\n' then k - 1 else k;
        var j := LineOccurs(rest, m);
        i := j + 1;
        OccursLater([s[0]], rest, Lines(rest)[m], j);
      }
    }
  }

  lemma LinesStep(s: string)
    requires s != ""
    ensures var rest := Lines(s[1..]);
            if s[0] == '\n' then Lines(s) == [""] + rest
            else |Lines(s)| == |rest| && Lines(s)[0] == [s[0]] + rest[0] && forall k :: 1 <= k < |rest| ==> Lines(s)[k] == rest[k]
  {
  }

  lemma OccursFirst(c: char, b: string, sub: string)
    requires OccursAt(b, sub, 0)
    ensures OccursAt([c] + b, [c] + sub, 0)
  {
    assert ([c] + b)[0..1 + |sub|] == [c] + b[0..|sub|];
  }

  lemma OccursLater(a: string, b: string, sub: string, j: nat)
    requires OccursAt(b, sub, j)
    ensures OccursAt(a + b, sub, |a| + j)
  {
    assert (a + b)[|a| + j..|a| + j + |sub|] == b[j..j + |sub|];
  }

  lemma UnmentionedHasNone(body: string)
    requires !Mentions(Closed(body))
    ensures Count(Front(body), IsProgress) == 0
  {
    hide Lines;
    var ls := Front(body);
    forall k | 0 <= k < |ls| ensures ls[k] != PROGRESS {
      var text := if HasSuffix(body, "\n") then body[..|body| - 1] else body;
      var i := LineOccurs(text, k);
      assert Closed(body) == text + "\n";
      assert Closed(body)[i..i + |ls[k]|] == text[i..i + |ls[k]|];
      assert OccursAt(Closed(body), ls[k], i);
    }
    NoneCounted(ls);
  }

  lemma {:induction false} NoneCounted(ls: seq<string>)
    requires forall k :: 0 <= k < |ls| ==> ls[k] != PROGRESS
    ensures Count(ls, IsProgress) == 0
  {
    if ls != [] {
      NoneCounted(ls[1..]);
    }
  }

  /** There is one Progress heading, if there was none mentioned; else as many as before. */
  lemma OneProgressHeading(body: string, line: string)
    requires '\n' !in line && line != PROGRESS
    ensures Count(Lines(AppendProgress(body, line)), IsProgress)
         == if Mentions(Closed(body)) then Count(Front(body), IsProgress) else 1
  {
    hide Lines, Closed, Front, Mentions, AppendProgress, PROGRESS, Count;
    ProgressLines(body, line);
    var heading := if Mentions(Closed(body)) then [] else [PROGRESS, ""];
    CountConcat(Front(body) + heading, [line, ""], IsProgress);
    CountConcat(Front(body), heading, IsProgress);
    FewCounted(line);
    if !Mentions(Closed(body)) { UnmentionedHasNone(body); }
  }

  lemma FewCounted(line: string)
    requires line != PROGRESS
    ensures Count([line, ""], IsProgress) == 0 && Count([PROGRESS, ""], IsProgress) == 1 && Count([], IsProgress) == 0
  {
    assert [line, ""][1..] == [""] && [PROGRESS, ""][1..] == [""] && [""][1..] == [];
    assert Count([""], IsProgress) == 0;
  }

  /** A first, second or third failure bumps the count by one; the fourth hands the task to
      a human. */
  lemma HandleExact(c: Config, t: Task, line: string, minted: string)
    requires InPlanning(c, t.fm) && PhasesDiffer(c) && CountOf(t.fm) >= 0
    ensures var w := Handle(c, t, line, minted).task;
            if CountOf(t.fm) >= 3 then Get(w.fm, Phase) == Some(Str("human_review")) && CountOf(w.fm) == CountOf(t.fm)
            else if exists l :: l in Lines(t.body) && Trim(l) == line then w == t
            else CountOf(w.fm) == CountOf(t.fm) + 1 && InPlanning(c, w.fm) == (c.lib.phase("planning") == Some("planning"))
  {
    hide AppendProgress, HasLineStarting, Trim, Lines, HasLine;
    EscalationEffect(c, line, t, Phase);
    EscalationEffect(c, line, t, PlanningRetryCount);
    BumpEffect(c, CountOf(t.fm), line, minted, t, Phase);
    BumpEffect(c, CountOf(t.fm), line, minted, t, PlanningRetryCount);
    hide EscalateWrite, RetryWrite;
  }
}
