/** What a result write leaves under every key and in the body, stated on the record on
    disk and the payload alone. */
module ResultEffect {
  import opened Records
  import opened BodyMerge
  import opened Escalation
  import opened FrontmatterMerge
  import opened ResultWriter

  // ---------------------------------------------------------------- readings of disk and payload

  /** The task is finished, on disk or by this result. */
  predicate Finished(c: Config, e: Frontmatter, i: Frontmatter) { c.lib.Terminal(e) || c.lib.Terminal(i) }

  /** Live with its triggers used up: the count and the cap are the disk's. */
  predicate AtCap(e: Frontmatter, i: Frontmatter) {
    && (MaxTriggers in e || (Ref in i && i[Ref].Str?) || (Ref !in i && Ref in e && e[Ref].Str?))
    && IntOf(Get(e, TriggerCount), 0) != 0 && IntOf(Get(e, TriggerCount), 0) >= IntOf(Get(e, MaxTriggers), 3)
  }

  predicate Spawns(e: Frontmatter, i: Frontmatter) { Latest(e, i, SpawnNotification) == Some(Bool(true)) }

  /** The retry budget is named, and the attempts counted on disk have used it up; a mere
      spawn notification is no attempt. */
  predicate OutOfRetries(e: Frontmatter, i: Frontmatter) {
    && !Spawns(e, i) && Latest(e, i, MaxRetries).Some?
    && IntOf(Get(e, RetryCount), 0) >= IntOf(Latest(e, i, MaxRetries), 3)
  }

  /** The payload's value, else the disk's. */
  function Latest(e: Frontmatter, i: Frontmatter, k: Field): Option<Value> {
    if k in i then Some(i[k]) else if k in e then Some(e[k]) else None
  }

  /** The owner the two agree on. */
  function Owner(e: Frontmatter, i: Frontmatter): Option<Value> {
    if Assignee in e && Assignee in i && i[Assignee] != Str("") && !Reassigns(e, i) then Some(e[Assignee])
    else Latest(e, i, Assignee)
  }

  function OwnerName(e: Frontmatter, i: Frontmatter): string {
    match Owner(e, i)
    case Some(Str(name)) => name
    case _ => ""
  }

  function FormerOwner(e: Frontmatter, i: Frontmatter): Option<Value> {
    if PreviousAssignee in e then Some(e[PreviousAssignee]) else Get(i, PreviousAssignee)
  }

  // ---------------------------------------------------------------- what the caps come to

  predicate ShowsTrigger(disk: Task, req: Task) { ContainsSection(MergedBody(disk.body, req.body), TRIGGER_HEADING) }

  /** The latest phase, except that a record escalated before keeps the phase on disk. */
  function PhaseAtCap(c: Config, disk: Task, req: Task): Option<Value> {
    if AtCap(disk.fm, req.fm) && ShowsTrigger(disk, req) && c.lib.PhaseOf(disk.fm).Some?
    then Some(Str(c.lib.PhaseOf(disk.fm).value))
    else Latest(disk.fm, req.fm, Phase)
  }

  /** No agent may own the record any more, by its triggers or its phase. */
  predicate Parks(c: Config, disk: Task, req: Task) {
    AtCap(disk.fm, req.fm) || PhaseAtCap(c, disk, req) == Some(Str("human_review"))
  }

  predicate Disowns(c: Config, disk: Task, req: Task) {
    && (Parks(c, disk, req) || OutOfRetries(disk.fm, req.fm))
    && !IsHuman(c.humans, OwnerName(disk.fm, req.fm))
  }

  function BodyAtCap(disk: Task, d: Delivery): string {
    var body := MergedBody(disk.body, d.req.body);
    if AtCap(disk.fm, d.req.fm) && !ShowsTrigger(disk, d.req)
    then body + TriggerSection(d.ts, TriggerCountOf(disk.fm), MaxTriggersOf(disk.fm), OwnerName(disk.fm, d.req.fm))
    else body
  }

  predicate ShowsRetry(disk: Task, d: Delivery) { ContainsSection(BodyAtCap(disk, d), RETRY_HEADING) }

  /** Whom a retry section names: nobody, if the record is parked already. */
  function RetryAgent(c: Config, disk: Task, req: Task): string {
    if Parks(c, disk, req) && !IsHuman(c.humans, OwnerName(disk.fm, req.fm)) then "" else OwnerName(disk.fm, req.fm)
  }

  /** What a live record holds under a key after the write. */
  function LiveValue(c: Config, disk: Task, d: Delivery, k: Field): Option<Value> {
    var e, i := disk.fm, d.req.fm;
    match k
    case Phase =>
      if OutOfRetries(e, i) && ShowsRetry(disk, d) && c.lib.PhaseOf(e).Some? then Some(Str(c.lib.PhaseOf(e).value))
      else PhaseAtCap(c, disk, d.req)
    case Assignee => if Disowns(c, disk, d.req) then Some(Str("")) else Owner(e, i)
    case PreviousAssignee =>
      if Disowns(c, disk, d.req) && OwnerName(e, i) != "" then Some(Str(OwnerName(e, i))) else FormerOwner(e, i)
    case SpawnNotification => if Spawns(e, i) then None else Latest(e, i, k)
    case _ => PlainValue(c, e, i, k)
  }

  /** The keys the caps do not touch, and all keys of a finished record. */
  function PlainValue(c: Config, e: Frontmatter, i: Frontmatter, k: Field): Option<Value> {
    match k
    case Assignee => Owner(e, i)
    case PreviousAssignee => FormerOwner(e, i)
    case TargetVault => if k in e || k in i then Latest(e, i, k) else Some(Str(c.vault))
    case CurrentJob =>
      var job := Latest(e, i, k);
      if Finished(c, e, i) && job.Some? && job.value != Null then Some(Str("")) else job
    case _ => MergedValue(c.lib, e, i, k)
  }

  function LiveBody(c: Config, disk: Task, d: Delivery): string {
    if OutOfRetries(disk.fm, d.req.fm) && !ShowsRetry(disk, d)
    then BodyAtCap(disk, d) + RetrySection(d.ts, RetryCountOf(disk.fm), RetryAgent(c, disk, d.req))
    else BodyAtCap(disk, d)
  }

  // ---------------------------------------------------------------- step by step

  lemma MergedReadings(c: Config, disk: Task, req: Task)
    ensures var m, e, i := MergedTask(c, disk, req), disk.fm, req.fm;
            && (c.lib.Terminal(m.fm) <==> Finished(c, e, i)) && (TriggerCapped(m.fm) <==> AtCap(e, i))
            && TriggerCountOf(m.fm) == TriggerCountOf(e) && MaxTriggersOf(m.fm) == MaxTriggersOf(e)
            && AssigneeOf(m.fm) == OwnerName(e, i) && m.body == MergedBody(disk.body, req.body)
  {
    hide *;
    var m := MergedTask(c, disk, req);
    MergedAt(c, disk, req, Status);
    MergedAt(c, disk, req, TriggerCount);
    MergedAt(c, disk, req, MaxTriggers);
    MergedAt(c, disk, req, Ref);
    MergedAt(c, disk, req, Assignee);
    CapReadings(c, disk.fm, req.fm, m.fm);
    MergedText(c, disk, req);
  }

  lemma MergedText(c: Config, disk: Task, req: Task)
    ensures MergedTask(c, disk, req).body == MergedBody(disk.body, req.body)
  {
    hide MergedBody, Merged;
  }

  lemma CapReadings(c: Config, e: Frontmatter, i: Frontmatter, m: Frontmatter)
    requires Get(m, Status) == PlainValue(c, e, i, Status) && Get(m, TriggerCount) == PlainValue(c, e, i, TriggerCount)
    requires Get(m, MaxTriggers) == PlainValue(c, e, i, MaxTriggers) && Get(m, Ref) == PlainValue(c, e, i, Ref)
    requires Get(m, Assignee) == PlainValue(c, e, i, Assignee)
    ensures (c.lib.Terminal(m) <==> Finished(c, e, i)) && (TriggerCapped(m) <==> AtCap(e, i))
    ensures TriggerCountOf(m) == TriggerCountOf(e) && MaxTriggersOf(m) == MaxTriggersOf(e) && AssigneeOf(m) == OwnerName(e, i)
  {
    TerminalMerge(c, e, i, m);
    assert Get(m, MaxTriggers) == Get(e, MaxTriggers) && Get(m, TriggerCount) == Get(e, TriggerCount);
    assert Get(m, Ref) == Latest(e, i, Ref);
    hide Finished, Library.Terminal, MergedValue;
    assert MaxTriggers in m <==> MaxTriggers in e;
  }

  lemma MergedAt(c: Config, disk: Task, req: Task, k: Field)
    ensures Get(MergedTask(c, disk, req).fm, k) == PlainValue(c, disk.fm, req.fm, k)
  {
    hide MergedBody;
    var e, i := disk.fm, req.fm;
    var m := Merged(c.lib, e, i);
    MergedIs(c, e, i, k);
    MergedIs(c, e, i, Status);
    TerminalMerge(c, e, i, m);
    hide Merged, MergedValue, Finished, Library.Terminal;
    StampedAt(c, m, k);
    hide ClearCurrentJobIfTerminal, HealTargetVault;
  }

  lemma MergedIs(c: Config, e: Frontmatter, i: Frontmatter, k: Field)
    ensures Get(Merged(c.lib, e, i), k) == MergedValue(c.lib, e, i, k)
    ensures k == Assignee ==> MergedValue(c.lib, e, i, k) == Owner(e, i)
    ensures k == PreviousAssignee ==> MergedValue(c.lib, e, i, k) == FormerOwner(e, i)
    ensures k == TargetVault || k == CurrentJob ==> MergedValue(c.lib, e, i, k) == Latest(e, i, k)
  {
    hide Merged;
  }

  lemma TerminalMerge(c: Config, e: Frontmatter, i: Frontmatter, m: Frontmatter)
    requires Get(m, Status) == MergedValue(c.lib, e, i, Status)
    ensures c.lib.Terminal(m) <==> Finished(c, e, i)
  {
  }

  lemma StampedAt(c: Config, m: Frontmatter, k: Field)
    ensures Get(ClearCurrentJobIfTerminal(c.lib, HealTargetVault(m, c.vault)), k)
         == if k == TargetVault && k !in m then Some(Str(c.vault))
            else if k == CurrentJob && c.lib.Terminal(m) && k in m && m[k] != Null then Some(Str(""))
            else Get(m, k)
  {
    assert Get(HealTargetVault(m, c.vault), Status) == Get(m, Status);
  }

  /** Taking a record away from its owner, unless a human owns it. */
  lemma ClearedAt(humans: set<string>, fm: Frontmatter, k: Field)
    ensures Get(ClearAssigneeUnlessHuman(humans, fm), k)
         == if IsHuman(humans, AssigneeOf(fm)) then Get(fm, k)
            else if k == Assignee then Some(Str(""))
            else if k == PreviousAssignee && AssigneeOf(fm) != "" then Some(Str(AssigneeOf(fm)))
            else Get(fm, k)
  {
  }

  /** An owner and a former owner, one of whom may have been cleared. */
  predicate Owned(humans: set<string>, fm: Frontmatter, e: Frontmatter, i: Frontmatter, cleared: bool) {
    var name := OwnerName(e, i);
    && Get(fm, Assignee) == (if cleared && !IsHuman(humans, name) then Some(Str("")) else Owner(e, i))
    && Get(fm, PreviousAssignee)
       == (if cleared && !IsHuman(humans, name) && name != "" then Some(Str(name)) else FormerOwner(e, i))
  }

  /** Clearing once more is clearing. */
  lemma OwnedCleared(humans: set<string>, fm: Frontmatter, e: Frontmatter, i: Frontmatter, before: bool)
    requires Owned(humans, fm, e, i, before)
    ensures Owned(humans, ClearAssigneeUnlessHuman(humans, fm), e, i, true)
    ensures AssigneeOf(fm) == if before && !IsHuman(humans, OwnerName(e, i)) then "" else OwnerName(e, i)
  {
    ClearedAt(humans, fm, Assignee);
    ClearedAt(humans, fm, PreviousAssignee);
  }

  predicate Routing(k: Field) { k == Assignee || k == PreviousAssignee || k == Phase || k == SpawnNotification }

  lemma TriggerStep(c: Config, disk: Task, d: Delivery)
    requires !Finished(c, disk.fm, d.req.fm)
    ensures var m := MergedTask(c, disk, d.req);
            var t := ApplyTriggerCap(c, d.ts, disk.fm, m);
            && Owned(c.humans, t.fm, disk.fm, d.req.fm, AtCap(disk.fm, d.req.fm))
            && Get(t.fm, Phase) == PhaseAtCap(c, disk, d.req) && t.body == BodyAtCap(disk, d)
            && (forall k :: k != Assignee && k != PreviousAssignee && k != Phase ==> Get(t.fm, k) == Get(m.fm, k))
  {
    hide *;
    var m, e, i := MergedTask(c, disk, d.req), disk.fm, d.req.fm;
    MergedReadings(c, disk, d.req);
    MergedOwned(c, disk, d.req);
    PhaseMerged(c, disk, d.req);
    OwnedCleared(c.humans, m.fm, e, i, false);
    OthersKept(c.humans, m.fm);
    TriggerBranches(c, disk, d, m);
  }

  lemma MergedOwned(c: Config, disk: Task, req: Task)
    ensures Owned(c.humans, MergedTask(c, disk, req).fm, disk.fm, req.fm, false)
  {
    MergedAt(c, disk, req, Assignee);
    MergedAt(c, disk, req, PreviousAssignee);
    hide MergedTask, IsHuman, OwnerName, Owner, FormerOwner;
  }

  lemma OthersKept(humans: set<string>, fm: Frontmatter)
    ensures forall k :: k != Assignee && k != PreviousAssignee ==> Get(ClearAssigneeUnlessHuman(humans, fm), k) == Get(fm, k)
  {
  }

  lemma TriggerBranches(c: Config, disk: Task, d: Delivery, m: Task)
    requires var e, i := disk.fm, d.req.fm;
             && Owned(c.humans, m.fm, e, i, false) && Owned(c.humans, ClearAssigneeUnlessHuman(c.humans, m.fm), e, i, true)
             && (TriggerCapped(m.fm) <==> AtCap(e, i)) && Get(m.fm, Phase) == Latest(e, i, Phase)
             && TriggerCountOf(m.fm) == TriggerCountOf(e) && MaxTriggersOf(m.fm) == MaxTriggersOf(e)
             && AssigneeOf(m.fm) == OwnerName(e, i) && m.body == MergedBody(disk.body, d.req.body)
    requires forall k :: k != Assignee && k != PreviousAssignee ==>
               Get(ClearAssigneeUnlessHuman(c.humans, m.fm), k) == Get(m.fm, k)
    ensures var t := ApplyTriggerCap(c, d.ts, disk.fm, m);
            && Owned(c.humans, t.fm, disk.fm, d.req.fm, AtCap(disk.fm, d.req.fm))
            && Get(t.fm, Phase) == PhaseAtCap(c, disk, d.req) && t.body == BodyAtCap(disk, d)
            && (forall k :: k != Assignee && k != PreviousAssignee && k != Phase ==> Get(t.fm, k) == Get(m.fm, k))
  {
    hide ContainsSection, TriggerSection, MergedBody, AtCap, TriggerCapped, OwnerName, Owner, FormerOwner, IsHuman,
      ClearAssigneeUnlessHuman, AssigneeOf, TriggerCountOf, MaxTriggersOf, Latest;
  }

  lemma PhaseMerged(c: Config, disk: Task, req: Task)
    ensures Get(MergedTask(c, disk, req).fm, Phase) == Latest(disk.fm, req.fm, Phase)
    ensures Get(MergedTask(c, disk, req).fm, SpawnNotification) == Latest(disk.fm, req.fm, SpawnNotification)
    ensures Get(MergedTask(c, disk, req).fm, MaxRetries) == Latest(disk.fm, req.fm, MaxRetries)
  {
    hide MergedTask;
    MergedAt(c, disk, req, Phase);
    MergedAt(c, disk, req, SpawnNotification);
    MergedAt(c, disk, req, MaxRetries);
  }

  lemma ParkStep(c: Config, disk: Task, d: Delivery)
    requires !Finished(c, disk.fm, d.req.fm)
    ensures var m := MergedTask(c, disk, d.req);
            var t := ApplyTriggerCap(c, d.ts, disk.fm, m);
            var p := ClearAssigneeIfHumanReview(c.humans, t.fm);
            && Owned(c.humans, p, disk.fm, d.req.fm, Parks(c, disk, d.req))
            && Get(p, Phase) == PhaseAtCap(c, disk, d.req)
            && (forall k :: k != Assignee && k != PreviousAssignee && k != Phase ==> Get(p, k) == Get(m.fm, k))
  {
    hide MergedTask, ApplyTriggerCap, AtCap, PhaseAtCap, Owned, Finished;
    var t := ApplyTriggerCap(c, d.ts, disk.fm, MergedTask(c, disk, d.req));
    TriggerStep(c, disk, d);
    OwnedCleared(c.humans, t.fm, disk.fm, d.req.fm, AtCap(disk.fm, d.req.fm));
    OthersKept(c.humans, t.fm);
    hide ClearAssigneeUnlessHuman;
  }

  lemma RetryStep(c: Config, disk: Task, d: Delivery, p: Task)
    requires Owned(c.humans, p.fm, disk.fm, d.req.fm, Parks(c, disk, d.req))
    requires Get(p.fm, Phase) == PhaseAtCap(c, disk, d.req) && p.body == BodyAtCap(disk, d)
    requires Get(p.fm, MaxRetries) == Latest(disk.fm, d.req.fm, MaxRetries) && !Spawns(disk.fm, d.req.fm)
    ensures var t := ApplyRetryCap(c, d.ts, disk.fm, p);
            && Owned(c.humans, t.fm, disk.fm, d.req.fm, Parks(c, disk, d.req) || OutOfRetries(disk.fm, d.req.fm))
            && Get(t.fm, Phase) == LiveValue(c, disk, d, Phase) && t.body == LiveBody(c, disk, d)
            && (forall k :: k != Assignee && k != PreviousAssignee && k != Phase ==> Get(t.fm, k) == Get(p.fm, k))
  {
    hide ContainsSection, RetrySection, Parks, PhaseAtCap, BodyAtCap, Owner, FormerOwner, OwnerName, IsHuman;
    assert MaxRetries in p.fm <==> Get(p.fm, MaxRetries).Some?;
    OwnedCleared(c.humans, p.fm, disk.fm, d.req.fm, Parks(c, disk, d.req));
    OthersKept(c.humans, p.fm);
    hide ClearAssigneeUnlessHuman, Spawns;
  }

  // ---------------------------------------------------------------- the effect

  /** The record of a finished task is the merge of the two, and its caps are off. */
  lemma FinishedWrite(c: Config, disk: Task, d: Delivery, k: Field)
    requires Finished(c, disk.fm, d.req.fm)
    ensures Get(ResultWrite(c, disk, d).fm, k) == PlainValue(c, disk.fm, d.req.fm, k)
    ensures ResultWrite(c, disk, d).body == MergedBody(disk.body, d.req.body)
  {
    hide MergedTask, MergedBody, Finished, PlainValue, AfterTriggerCap;
    MergedReadings(c, disk, d.req);
    MergedAt(c, disk, d.req, k);
  }

  /** The record of a live task, key by key, and its body. */
  lemma LiveWrite(c: Config, disk: Task, d: Delivery, k: Field)
    requires !Finished(c, disk.fm, d.req.fm)
    ensures Get(ResultWrite(c, disk, d).fm, k) == LiveValue(c, disk, d, k)
    ensures ResultWrite(c, disk, d).body == LiveBody(c, disk, d)
  {
    hide *;
    LiveOutcome(c, disk, d);
    MergedAt(c, disk, d.req, k);
    RoutingKeys();
    LiveValueIs(c, disk, d, ResultWrite(c, disk, d).fm, k);
  }

  lemma LiveValueIs(c: Config, disk: Task, d: Delivery, fm: Frontmatter, k: Field)
    ensures !Routing(k) ==> LiveValue(c, disk, d, k) == PlainValue(c, disk.fm, d.req.fm, k)
    ensures Owned(c.humans, fm, disk.fm, d.req.fm, Parks(c, disk, d.req) || OutOfRetries(disk.fm, d.req.fm)) ==>
      Get(fm, Assignee) == LiveValue(c, disk, d, Assignee) && Get(fm, PreviousAssignee) == LiveValue(c, disk, d, PreviousAssignee)
  {
    hide PlainValue, Parks, OutOfRetries, Spawns, IsHuman, OwnerName, Owner, FormerOwner, PhaseAtCap, ShowsRetry, Latest;
  }

  lemma LiveOutcome(c: Config, disk: Task, d: Delivery)
    requires !Finished(c, disk.fm, d.req.fm)
    ensures var m, w := MergedTask(c, disk, d.req), ResultWrite(c, disk, d);
            && Owned(c.humans, w.fm, disk.fm, d.req.fm, Parks(c, disk, d.req) || OutOfRetries(disk.fm, d.req.fm))
            && Get(w.fm, Phase) == LiveValue(c, disk, d, Phase) && w.body == LiveBody(c, disk, d)
            && Get(w.fm, SpawnNotification) == LiveValue(c, disk, d, SpawnNotification)
            && (forall k :: !Routing(k) ==> Get(w.fm, k) == Get(m.fm, k))
  {
    hide *;
    var m := MergedTask(c, disk, d.req);
    var capped := ApplyTriggerCap(c, d.ts, disk.fm, m);
    var parked := capped.(fm := ClearAssigneeIfHumanReview(c.humans, capped.fm));
    PhaseMerged(c, disk, d.req);
    TriggerStep(c, disk, d);
    ParkStep(c, disk, d);
    WriteUnfolds(c, disk, d);
    SpawnReadings(c, disk, d);
    RoutingKeys();
    if Spawns(disk.fm, d.req.fm) {
      SpawnDropped(c, disk, d, parked.fm);
    } else {
      RetryStep(c, disk, d, parked);
    }
  }

  lemma RoutingKeys()
    ensures forall k :: Routing(k) <==> (k == Assignee || k == PreviousAssignee || k == Phase || k == SpawnNotification)
  {
  }

  lemma WriteUnfolds(c: Config, disk: Task, d: Delivery)
    requires !Finished(c, disk.fm, d.req.fm)
    ensures var capped := ApplyTriggerCap(c, d.ts, disk.fm, MergedTask(c, disk, d.req));
            var parked := capped.(fm := ClearAssigneeIfHumanReview(c.humans, capped.fm));
            ResultWrite(c, disk, d)
            == if Get(parked.fm, SpawnNotification) == Some(Bool(true)) then parked.(fm := parked.fm - {SpawnNotification})
               else ApplyRetryCap(c, d.ts, disk.fm, parked)
  {
    MergedReadings(c, disk, d.req);
    hide ApplyTriggerCap, ApplyRetryCap, ClearAssigneeIfHumanReview, MergedTask, Finished;
  }

  lemma SpawnReadings(c: Config, disk: Task, d: Delivery)
    ensures Spawns(disk.fm, d.req.fm) <==> Latest(disk.fm, d.req.fm, SpawnNotification) == Some(Bool(true))
    ensures LiveValue(c, disk, d, SpawnNotification)
         == if Spawns(disk.fm, d.req.fm) then None else Latest(disk.fm, d.req.fm, SpawnNotification)
    ensures Spawns(disk.fm, d.req.fm) ==>
      !OutOfRetries(disk.fm, d.req.fm) && LiveValue(c, disk, d, Phase) == PhaseAtCap(c, disk, d.req)
      && LiveBody(c, disk, d) == BodyAtCap(disk, d)
  {
    hide PhaseAtCap, BodyAtCap, ShowsRetry, RetrySection;
  }

  lemma SpawnDropped(c: Config, disk: Task, d: Delivery, fm: Frontmatter)
    ensures var rest := fm - {SpawnNotification};
            && Get(rest, SpawnNotification) == None
            && (forall k :: k != SpawnNotification ==> Get(rest, k) == Get(fm, k))
            && (forall cleared :: Owned(c.humans, fm, disk.fm, d.req.fm, cleared) <==> Owned(c.humans, rest, disk.fm, d.req.fm, cleared))
  {
    hide Owner, FormerOwner, OwnerName, IsHuman;
  }

  // ---------------------------------------------------------------- what that means

  /** With neither budget used up, the latest phase and the merged body stand, and so does
      the owner, unless that phase waits for a human. */
  lemma UncappedWrite(c: Config, disk: Task, d: Delivery)
    requires var e, i := disk.fm, d.req.fm; !Finished(c, e, i) && !AtCap(e, i) && !OutOfRetries(e, i)
    ensures var e, i, w := disk.fm, d.req.fm, ResultWrite(c, disk, d);
            && Get(w.fm, Phase) == Latest(e, i, Phase) && w.body == MergedBody(disk.body, d.req.body)
            && (Latest(e, i, Phase) != Some(Str("human_review")) ==>
                  Get(w.fm, Assignee) == Owner(e, i) && Get(w.fm, PreviousAssignee) == FormerOwner(e, i))
            && (Latest(e, i, Phase) == Some(Str("human_review")) ==> Unowned(c.humans, w.fm))
  {
    hide ResultWrite, MergedBody, AtCap, OutOfRetries, Finished;
    LiveWrite(c, disk, d, Phase);
    LiveWrite(c, disk, d, Assignee);
    LiveWrite(c, disk, d, PreviousAssignee);
  }

  /** A spawn notification is used up by the write that carries it, and is no attempt. */
  lemma SpawnIsUsedUp(c: Config, disk: Task, d: Delivery)
    requires !Finished(c, disk.fm, d.req.fm)
    ensures Get(ResultWrite(c, disk, d).fm, SpawnNotification)
         == if Latest(disk.fm, d.req.fm, SpawnNotification) == Some(Bool(true)) then None
            else Latest(disk.fm, d.req.fm, SpawnNotification)
    ensures Spawns(disk.fm, d.req.fm) ==> ResultWrite(c, disk, d).body == BodyAtCap(disk, d)
  {
    hide ResultWrite, BodyAtCap, Finished, ShowsRetry, RetrySection;
    LiveWrite(c, disk, d, SpawnNotification);
  }

  /** A live record whose retry budget is used up ends without an agent, and with one
      Retry section; its former owner is on record. */
  lemma RetryCapReached(c: Config, disk: Task, d: Delivery)
    requires !Finished(c, disk.fm, d.req.fm) && OutOfRetries(disk.fm, d.req.fm)
    requires Terminated(disk.body) && Terminated(d.req.body) && OneLine(d.ts) && OneLine(OwnerName(disk.fm, d.req.fm))
    requires !Names(SplitBody(disk.body).sections, RETRY_HEADING) && !Names(SplitBody(d.req.body).sections, RETRY_HEADING)
    ensures var w := ResultWrite(c, disk, d);
            && Unowned(c.humans, w.fm) && ExactlyOne(w.body, RETRY_HEADING)
            && (OwnerName(disk.fm, d.req.fm) != "" && !IsHuman(c.humans, OwnerName(disk.fm, d.req.fm)) ==>
                  Get(w.fm, PreviousAssignee) == Some(Str(OwnerName(disk.fm, d.req.fm))))
  {
    hide *;
    LiveOutcome(c, disk, d);
    OwnedIsUnowned(c, disk, d, ResultWrite(c, disk, d).fm);
    RetryBody(c, disk, d);
  }

  lemma OwnedIsUnowned(c: Config, disk: Task, d: Delivery, fm: Frontmatter)
    requires Owned(c.humans, fm, disk.fm, d.req.fm, true)
    ensures Unowned(c.humans, fm)
    ensures var name := OwnerName(disk.fm, d.req.fm);
            name != "" && !IsHuman(c.humans, name) ==> Get(fm, PreviousAssignee) == Some(Str(name))
  {
    hide Reassigns;
  }

  lemma RetryBody(c: Config, disk: Task, d: Delivery)
    requires OutOfRetries(disk.fm, d.req.fm)
    requires Terminated(disk.body) && Terminated(d.req.body) && OneLine(d.ts) && OneLine(OwnerName(disk.fm, d.req.fm))
    requires !Names(SplitBody(disk.body).sections, RETRY_HEADING) && !Names(SplitBody(d.req.body).sections, RETRY_HEADING)
    ensures ExactlyOne(LiveBody(c, disk, d), RETRY_HEADING)
  {
    hide Terminated, ExactlyOne, Names, SplitBody, MergedBody, ContainsSection, OutOfRetries, Parks, OneLine, AtCap, OwnerName;
    HeadingNames();
    BodyAtCapWithoutRetry(disk, d);
    var body, agent := BodyAtCap(disk, d), RetryAgent(c, disk, d.req);
    assert OneLine(agent) by { NothingOneLine(); }
    RetryItemsOneLine(d.ts, RetryCountOf(disk.fm), agent);
    UnnamedIsUnseen(body, RETRY_HEADING);
    SectionAddsOne(body, RETRY_HEADING, RetryItems(d.ts, RetryCountOf(disk.fm), agent));
  }

  lemma NothingOneLine()
    ensures OneLine("")
  {
  }

  lemma BodyAtCapWithoutRetry(disk: Task, d: Delivery)
    requires Terminated(disk.body) && Terminated(d.req.body) && OneLine(d.ts) && OneLine(OwnerName(disk.fm, d.req.fm))
    requires !Names(SplitBody(disk.body).sections, RETRY_HEADING) && !Names(SplitBody(d.req.body).sections, RETRY_HEADING)
    ensures Terminated(BodyAtCap(disk, d)) && !Names(SplitBody(BodyAtCap(disk, d)).sections, RETRY_HEADING)
  {
    hide Terminated, Names, SplitBody, MergedBody, ContainsSection, OneLine, AtCap, OwnerName, SectionText;
    HeadingNames();
    MergedStaysWithout(disk.body, d.req.body, RETRY_HEADING);
    var items := TriggerItems(d.ts, TriggerCountOf(disk.fm), MaxTriggersOf(disk.fm), OwnerName(disk.fm, d.req.fm));
    TriggerItemsOneLine(d.ts, TriggerCountOf(disk.fm), MaxTriggersOf(disk.fm), OwnerName(disk.fm, d.req.fm));
    SectionBehindKeepsWithout(MergedBody(disk.body, d.req.body), TRIGGER_HEADING, items, RETRY_HEADING);
  }
}
