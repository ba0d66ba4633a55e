/** Every writer of a task record, one serialised write at a time, and what no sequence
    of such writes can break. */
module Writers {
  import opened Records
  import opened Escalation
  import opened ResultWriter
  import opened UpdateCommand
  import PlanningRetry
  import CompleteTask

  // ---------------------------------------------------------------- the remaining writers

  /** buildIncrementPatch: an increment that takes trigger_count to its cap also clears
      the assignee, human or not. */
  function IncrementPatch(c: Config, field: Field, delta: int, fm: Frontmatter): Frontmatter {
    var value := IntOf(Get(fm, field), 0) + delta;
    var base := map[field := Int(value)];
    var name := AssigneeOf(fm);
    var patch :=
      if field == TriggerCount && TriggerCapEngaged(fm) && value >= MaxTriggersOf(fm) then
        (if name != "" then base[PreviousAssignee := Str(name)] else base)[Assignee := Str("")]
      else base;
    if TargetVault in fm then patch else patch[TargetVault := Str(c.vault)]
  }

  /** An increment adds to the field, counting from 0 where there is no number. When it
      takes trigger_count to the cap it also takes the record from its owner, human or
      not, who goes on record. Nothing else moves but the vault stamp. */
  lemma IncrementEffect(c: Config, field: Field, delta: int, fm: Frontmatter, k: Field)
    requires field != Assignee && field != PreviousAssignee && field != TargetVault
    ensures var value, name := IntOf(Get(fm, field), 0) + delta, AssigneeOf(fm);
            var escalates := && field == TriggerCount && (MaxTriggers in fm || (Ref in fm && fm[Ref].Str?))
                             && value >= IntOf(Get(fm, MaxTriggers), 3);
            Get(fm + IncrementPatch(c, field, delta, fm), k)
            == if k == field then Some(Int(value))
               else if k == Assignee && escalates then Some(Str(""))
               else if k == PreviousAssignee && escalates && name != "" then Some(Str(name))
               else if k == TargetVault && k !in fm then Some(Str(c.vault))
               else Get(fm, k)
  {
  }

  /** isCappedIdle */
  predicate CappedIdle(fm: Frontmatter) {
    TriggerCapEngaged(fm) && TriggerCountOf(fm) > 0 && TriggerCountOf(fm) >= MaxTriggersOf(fm)
  }

  /** escalateCappedContent acts only on an owned, idle, capped in-progress record. */
  predicate Sweepable(c: Config, fm: Frontmatter) {
    && CappedIdle(fm) && c.lib.StatusOf(fm) == "in_progress"
    && StringOf(fm, CurrentJob) == "" && AssigneeOf(fm) != ""
  }

  function SweepWrite(c: Config, ts: string, t: Task): Task {
    if !Sweepable(c, t.fm) then t
    else
      Task(ClearAssignee(t.fm)[Status := Str("hold")],
           if ContainsSection(t.body, TRIGGER_HEADING) then t.body
           else t.body + TriggerSection(ts, TriggerCountOf(t.fm), MaxTriggersOf(t.fm), AssigneeOf(t.fm)))
  }

  /** One write, as it lands. An update whose PATCH never lands only touches the body;
      so does every Resolution or escalation PUT. */
  datatype Write =
    | Result(delivery: Delivery)
    | Update(cmd: Command, try: Try)
    | Increment(field: Field, delta: int)
    | Close(close: CompleteTask.CloseCommand)
    | PutBody(body: string)
    | Retry(count: int, line: string, minted: string)
    | Escalate(note: string)
    | Sweep(ts: string)
    | ResetCounter
    | Repair(id: string, previous: Option<string>)

  function Apply(c: Config, t: Task, w: Write): Task {
    match w
    case Result(d) => ResultWrite(c, t, d)
    case Update(cmd, try) => Attempt(c, cmd, try, t)
    case Increment(field, delta) => t.(fm := t.fm + IncrementPatch(c, field, delta, t.fm))
    case Close(cmd) => t.(fm := t.fm + CompleteTask.CompletePatch(c, cmd, t.fm))
    case PutBody(body) => t.(body := body)
    case Retry(count, line, minted) => PlanningRetry.RetryWrite(c, count, line, minted, t).task
    case Escalate(note) => PlanningRetry.EscalateWrite(c, note, t).task
    case Sweep(ts) => SweepWrite(c, ts, t)
    case ResetCounter => t.(fm := t.fm[TriggerCount := Int(0)])
    case Repair(id, previous) =>
      var fm := t.fm[TaskIdentifier := Str(id)];
      t.(fm := if previous.Some? then fm[TaskIdentifierPrevious := Str(previous.value)] else fm)
  }

  function ApplyAll(c: Config, t: Task, ws: seq<Write>): Task
    decreases |ws|
  {
    if ws == [] then t else ApplyAll(c, Apply(c, t, ws[0]), ws[1..])
  }

  // ---------------------------------------------------------------- the parked-record doctrine

  /** A live record waiting for a human has no agent as its owner. */
  predicate Doctrine(c: Config, fm: Frontmatter) {
    !c.lib.Terminal(fm) && InHumanReview(fm) ==> Unowned(c.humans, fm)
  }

  lemma ChokepointEstablishes(c: Config, fm: Frontmatter)
    ensures Doctrine(c, ClearAssigneeIfHumanReview(c.humans, fm))
  {
  }

  lemma ResultKeepsDoctrine(c: Config, t: Task, d: Delivery)
    requires Doctrine(c, t.fm)
    ensures Doctrine(c, ResultWrite(c, t, d).fm)
  {
    hide MergedTask, ApplyTriggerCap, RetryCapped, ContainsSection, RetrySection;
    var m := MergedTask(c, t, d.req);
    if !c.lib.Terminal(m.fm) {
      var capped := ApplyTriggerCap(c, d.ts, t.fm, m);
      ChokepointEstablishes(c, capped.fm);
    }
  }

  /** Records that agree on status, phase and assignee agree on the doctrine. */
  lemma SameDoctrine(c: Config, a: Frontmatter, b: Frontmatter)
    requires SameValue(Get(a, Status), Get(b, Status)) && SameValue(Get(a, Phase), Get(b, Phase))
    requires SameValue(Get(a, Assignee), Get(b, Assignee))
    ensures Doctrine(c, a) == Doctrine(c, b)
  {
  }

  lemma UpdateKeepsDoctrine(c: Config, updates: Frontmatter, fm: Frontmatter)
    ensures Doctrine(c, fm + Patch(c, updates, fm))
  {
    hide Patch, Wanted, Guarded, TriggerCapped, Doctrines;
    var m, patched := Guarded(updates, fm), fm + Patch(c, updates, fm);
    PatchIsMerge(c, updates, fm);
    WantedIs(c, updates, fm);
    DoctrinesPointwise(c, m, Status);
    DoctrinesPointwise(c, m, Phase);
    DoctrinesPointwise(c, m, Assignee);
    SameDoctrine(c, patched, Wanted(c, updates, fm));
    SameStrings(Get(m, Status), Get(m, Phase));
  }

  lemma SameStrings(a: Option<Value>, b: Option<Value>)
    ensures SameValue(a, a) && SameValue(b, b)
  {
  }

  /** The increment overwrites a terminal status with a number, and the finished record
      its agent left in review is live again. */
  predicate Reopens(c: Config, field: Field, fm: Frontmatter) {
    field == Status && c.lib.Terminal(fm) && InHumanReview(fm) && !Unowned(c.humans, fm)
  }

  /** An increment of any field keeps the doctrine, except exactly when it reopens. */
  lemma IncrementExact(c: Config, field: Field, delta: int, fm: Frontmatter)
    requires Doctrine(c, fm)
    ensures Doctrine(c, fm + IncrementPatch(c, field, delta, fm)) <==> !Reopens(c, field, fm)
  {
    hide TriggerCapEngaged;
    var after := fm + IncrementPatch(c, field, delta, fm);
    if field == Status {
      assert Get(after, Status).Some? && Get(after, Status).value.Int?;
      assert Get(after, Phase) == Get(fm, Phase) && Get(after, Assignee) == Get(fm, Assignee);
    } else {
      assert Get(after, Status) == Get(fm, Status);
      assert field != Phase ==> Get(after, Phase) == Get(fm, Phase);
      assert Get(after, Assignee) == Get(fm, Assignee) || AssigneeOf(after) == "";
    }
  }

  lemma GateKeepsDoctrine(c: Config, t: Task, count: int, line: string, minted: string)
    requires Doctrine(c, t.fm)
    ensures Doctrine(c, PlanningRetry.RetryWrite(c, count, line, minted, t).task.fm)
    ensures Doctrine(c, PlanningRetry.EscalateWrite(c, line, t).task.fm)
  {
    hide PlanningRetry.HasLine, PlanningRetry.AppendProgress, PlanningRetry.HasLineStarting;
  }

  predicate Breaks(c: Config, fm: Frontmatter, w: Write) {
    w.Increment? && Reopens(c, w.field, fm)
  }

  /** Every write keeps the doctrine, except exactly a reopening increment. */
  lemma WriteKeepsDoctrine(c: Config, t: Task, w: Write)
    requires Doctrine(c, t.fm)
    ensures Doctrine(c, Apply(c, t, w).fm) <==> !Breaks(c, t.fm, w)
  {
    hide ResultWrite, Patch, IncrementPatch, NewBody, EscalationOf, PlanningRetry.RetryWrite,
      PlanningRetry.EscalateWrite, ContainsSection, TriggerSection, CappedIdle, Reopens;
    match w
    case Result(d) => ResultKeepsDoctrine(c, t, d);
    case Update(cmd, try) => UpdateKeepsDoctrine(c, cmd.updates, t.fm);
    case Increment(field, delta) => IncrementExact(c, field, delta, t.fm);
    case Retry(count, line, minted) => GateKeepsDoctrine(c, t, count, line, minted);
    case Escalate(note) => GateKeepsDoctrine(c, t, 0, note, "");
    case _ =>
  }

  /** No write of the sequence meets a record it would break. */
  predicate NoneBreaks(c: Config, t: Task, ws: seq<Write>)
    decreases |ws|
  {
    ws == [] || (!Breaks(c, t.fm, ws[0]) && NoneBreaks(c, Apply(c, t, ws[0]), ws[1..]))
  }

  predicate DoctrineThroughout(c: Config, t: Task, ws: seq<Write>)
    decreases |ws|
  {
    Doctrine(c, t.fm) && (ws == [] || DoctrineThroughout(c, Apply(c, t, ws[0]), ws[1..]))
  }

  /** The parked-record doctrine holds throughout a serialised interleaving of all
      writers exactly when no increment in it reopens the record it meets. */
  lemma {:induction false} ParkedRecordDoctrine(c: Config, t: Task, ws: seq<Write>)
    requires Doctrine(c, t.fm)
    ensures DoctrineThroughout(c, t, ws) <==> NoneBreaks(c, t, ws)
    ensures NoneBreaks(c, t, ws) ==> Doctrine(c, ApplyAll(c, t, ws).fm)
    decreases |ws|
  {
    hide Apply, Doctrine, Breaks;
    if ws != [] {
      WriteKeepsDoctrine(c, t, ws[0]);
      var next := Apply(c, t, ws[0]);
      if Doctrine(c, next.fm) {
        ParkedRecordDoctrine(c, next, ws[1..]);
      } else {
        assert !DoctrineThroughout(c, next, ws[1..]);
      }
    }
  }

  /** Such a record: completed, left in review under its agent's name. */
  lemma IncrementingStatusBreaksDoctrine(c: Config, delta: int)
    requires c.lib.status("completed") == "completed" && !IsHuman(c.humans, "agent")
    ensures var fm := map[Status := Str("completed"), Phase := Str("human_review"), Assignee := Str("agent")];
            Doctrine(c, fm) && !Doctrine(c, fm + IncrementPatch(c, Status, delta, fm))
  {
    var fm := map[Status := Str("completed"), Phase := Str("human_review"), Assignee := Str("agent")];
    assert Get(fm, Status) == Some(Str("completed"));
    assert Get(fm, Phase) == Some(Str("human_review")) && Get(fm, Assignee) == Some(Str("agent"));
    IncrementExact(c, Status, delta, fm);
  }

  // ---------------------------------------------------------------- the trigger budget

  /** An increment counts a cap that is absent or no number as 0, while the effective
      cap is then the default: it raises the cap only beyond the default. */
  predicate RaisesCap(fm: Frontmatter, w: Write) {
    && w.Increment? && w.field == MaxTriggers
    && w.delta > if MaxTriggers in fm && Numeric(fm[MaxTriggers]).Some? then 0 else DEFAULT_CAP
  }

  lemma IncrementRaisesExact(c: Config, delta: int, fm: Frontmatter)
    ensures MaxTriggersOf(fm + IncrementPatch(c, MaxTriggers, delta, fm)) > MaxTriggersOf(fm)
       <==> RaisesCap(fm, Increment(MaxTriggers, delta))
  {
    hide TriggerCapEngaged;
    var after := fm + IncrementPatch(c, MaxTriggers, delta, fm);
    assert Get(after, MaxTriggers) == Some(Int(IntOf(Get(fm, MaxTriggers), 0) + delta));
  }

  /** A write raises the effective trigger cap exactly when it is such an increment. */
  lemma WriteKeepsCap(c: Config, t: Task, w: Write)
    ensures MaxTriggersOf(Apply(c, t, w).fm) <= MaxTriggersOf(t.fm) <==> !RaisesCap(t.fm, w)
  {
    if w.Result? {
      hide ResultWrite, MergedTask;
      WriteFrame(c, t, w.delivery, MaxTriggers);
    } else if w.Update? {
      hide Patch, NewBody, EscalationOf;
      UpdateKeepsCap(c, w.cmd.updates, t.fm);
    } else if w.Increment? && w.field == MaxTriggers {
      hide IncrementPatch;
      IncrementRaisesExact(c, w.delta, t.fm);
    } else {
      OthersLeaveCap(c, t, w);
      hide Apply;
    }
  }

  lemma OthersLeaveCap(c: Config, t: Task, w: Write)
    requires !w.Result? && !w.Update? && !(w.Increment? && w.field == MaxTriggers)
    ensures Get(Apply(c, t, w).fm, MaxTriggers) == Get(t.fm, MaxTriggers)
  {
    hide ContainsSection, TriggerSection, CappedIdle, TriggerCapEngaged,
      PlanningRetry.HasLine, PlanningRetry.AppendProgress, PlanningRetry.HasLineStarting;
  }

  predicate NoneRaises(c: Config, t: Task, ws: seq<Write>)
    decreases |ws|
  {
    ws == [] || (!RaisesCap(t.fm, ws[0]) && NoneRaises(c, Apply(c, t, ws[0]), ws[1..]))
  }

  /** Each record's cap is at most its predecessor's. */
  predicate CapFalls(c: Config, t: Task, ws: seq<Write>)
    decreases |ws|
  {
    ws == [] ||
    (&& MaxTriggersOf(Apply(c, t, ws[0]).fm) <= MaxTriggersOf(t.fm)
     && CapFalls(c, Apply(c, t, ws[0]), ws[1..]))
  }

  /** Nobody raises its own budget: the effective trigger cap never rises along a sequence
      of writes exactly when no increment of max_triggers in it goes beyond what the
      record it meets already allows. */
  lemma {:induction false} CapNeverRises(c: Config, t: Task, ws: seq<Write>)
    ensures CapFalls(c, t, ws) <==> NoneRaises(c, t, ws)
    ensures NoneRaises(c, t, ws) ==> MaxTriggersOf(ApplyAll(c, t, ws).fm) <= MaxTriggersOf(t.fm)
    decreases |ws|
  {
    hide Apply, MaxTriggersOf, RaisesCap;
    if ws != [] {
      WriteKeepsCap(c, t, ws[0]);
      CapNeverRises(c, Apply(c, t, ws[0]), ws[1..]);
    }
  }

  /** The same increment raises the cap of a record that names one and lowers the cap of
      a record that does not. */
  lemma IncrementMovesCap(c: Config)
    ensures var named := map[MaxTriggers := Int(5)];
            MaxTriggersOf(named + IncrementPatch(c, MaxTriggers, 1, named)) == 6 > MaxTriggersOf(named)
    ensures var unnamed := map[];
            MaxTriggersOf(unnamed + IncrementPatch(c, MaxTriggers, 1, unnamed)) == 1 < MaxTriggersOf(unnamed)
  {
    var named: Frontmatter, unnamed: Frontmatter := map[MaxTriggers := Int(5)], map[];
    assert Get(named + IncrementPatch(c, MaxTriggers, 1, named), MaxTriggers) == Some(Int(6));
    assert Get(unnamed + IncrementPatch(c, MaxTriggers, 1, unnamed), MaxTriggers) == Some(Int(1));
  }
}
