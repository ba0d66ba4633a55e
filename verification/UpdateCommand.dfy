/** The update-frontmatter command: a body PUT followed by a field-level PATCH, two
    requests with a failure window between them (buildUpdatePatch, applyUpdate). */
module UpdateCommand {
  import opened Records
  import opened BodyMerge
  import opened Escalation
  import opened ResultWriter

  /** The command: the fields it names, and the section edit it carries, if any.
      `edit` stands for the library's replace-or-append of one body section. */
  datatype Command = Command(updates: Frontmatter, edit: Option<string -> string>)

  datatype CapEscalation = CapEscalation(count: int, cap: int, agent: string)

  predicate WithinDefaultCap(v: Value) {
    Numeric(v).Some? && Numeric(v).value <= DEFAULT_CAP as real
  }

  // ---------------------------------------------------------------- the patch

  /** A named max_triggers never replaces one on disk, and is introduced only within
      the default cap. */
  function GuardCap(updates: Frontmatter, fm: Frontmatter, merged: Frontmatter): Frontmatter {
    if MaxTriggers !in updates then merged
    else if MaxTriggers in fm then merged[MaxTriggers := fm[MaxTriggers]]
    else if WithinDefaultCap(updates[MaxTriggers]) then merged
    else merged - {MaxTriggers}
  }

  /** trigger_scope travels only with a trigger_count. */
  function GuardScope(updates: Frontmatter, fm: Frontmatter, merged: Frontmatter): Frontmatter {
    if TriggerScope !in updates || TriggerCount in updates then merged
    else if TriggerScope in fm then merged[TriggerScope := fm[TriggerScope]]
    else merged - {TriggerScope}
  }

  function Guarded(updates: Frontmatter, fm: Frontmatter): Frontmatter {
    GuardScope(updates, fm, GuardCap(updates, fm, fm + updates))
  }

  /** The trigger cap, then the human-review chokepoint. */
  function Parking(c: Config, m: Frontmatter): Frontmatter {
    ClearAssigneeIfHumanReview(c.humans, if TriggerCapped(m) then ClearAssigneeUnlessHuman(c.humans, m) else m)
  }

  /** Parking, the vault stamp, the stale job. */
  function Doctrines(c: Config, m: Frontmatter): Frontmatter {
    ClearCurrentJobIfTerminal(c.lib, HealTargetVault(Parking(c, m), c.vault))
  }

  /** The record the command asks for. */
  function Wanted(c: Config, updates: Frontmatter, fm: Frontmatter): Frontmatter {
    Doctrines(c, Guarded(updates, fm))
  }

  function Patch(c: Config, updates: Frontmatter, fm: Frontmatter): Frontmatter {
    var wanted := Wanted(c, updates, fm);
    map k | k in wanted && (k in fm ==> !ValueEqual(fm[k], wanted[k])) :: wanted[k]
  }

  function EscalationOf(updates: Frontmatter, fm: Frontmatter): Option<CapEscalation> {
    var m := Guarded(updates, fm);
    if TriggerCapped(m) then Some(CapEscalation(TriggerCountOf(m), MaxTriggersOf(m), AssigneeOf(m))) else None
  }

  /** buildUpdatePatch: the loop that keeps only what is new or differs. */
  method BuildUpdatePatch(c: Config, updates: Frontmatter, fm: Frontmatter)
    returns (patch: Frontmatter, escalation: Option<CapEscalation>)
    ensures patch == Patch(c, updates, fm)
    ensures escalation == EscalationOf(updates, fm)
  {
    hide Wanted;
    escalation := EscalationOf(updates, fm);
    var wanted := Wanted(c, updates, fm);
    patch := map[];
    var keys := wanted.Keys;
    while keys != {}
      invariant keys <= wanted.Keys
      invariant forall k :: k in patch <==> k in wanted && k !in keys && (k in fm ==> !ValueEqual(fm[k], wanted[k]))
      invariant forall k :: k in patch ==> patch[k] == wanted[k]
      decreases keys
    {
      var key :| key in keys;
      if key !in fm || !ValueEqual(fm[key], wanted[key]) {
        patch := patch[key := wanted[key]];
      }
      keys := keys - {key};
    }
  }

  // ---------------------------------------------------------------- patch = merge

  /** Equal up to int/float. */
  predicate SameValue(a: Option<Value>, b: Option<Value>) {
    a.Some? == b.Some? && (a.Some? ==> ValueEqual(a.value, b.value))
  }

  ghost predicate Same(a: Frontmatter, b: Frontmatter) {
    forall k :: SameValue(Get(a, k), Get(b, k))
  }

  lemma ValueEqualEquivalence(a: Value, b: Value, d: Value)
    ensures ValueEqual(a, a)
    ensures ValueEqual(a, b) ==> ValueEqual(b, a)
    ensures ValueEqual(a, b) && ValueEqual(b, d) ==> ValueEqual(a, d)
    ensures ValueEqual(a, b) && a.Str? ==> a == b
  {
  }

  lemma NothingRemoved(c: Config, updates: Frontmatter, fm: Frontmatter)
    ensures fm.Keys <= Wanted(c, updates, fm).Keys
  {
  }

  /** The field PATCH refines the whole-record merge: patched, the record holds key by
      key what the merge would have written, and nothing is sent that does not differ. */
  lemma PatchIsMerge(c: Config, updates: Frontmatter, fm: Frontmatter)
    ensures Same(fm + Patch(c, updates, fm), Wanted(c, updates, fm))
    ensures forall k :: k in Patch(c, updates, fm) ==> !SameValue(Get(fm, k), Get(Wanted(c, updates, fm), k))
  {
    NothingRemoved(c, updates, fm);
    hide Wanted;
    var wanted, patched := Wanted(c, updates, fm), fm + Patch(c, updates, fm);
    forall k ensures SameValue(Get(patched, k), Get(wanted, k)) {
      if k in wanted { ValueEqualEquivalence(wanted[k], wanted[k], wanted[k]); }
    }
  }

  // ---------------------------------------------------------------- doctrines, pointwise

  /** The cap or the chokepoint takes the task away from its assignee. */
  predicate Cleared(c: Config, m: Frontmatter) {
    (TriggerCapped(m) || InHumanReview(m)) && !IsHuman(c.humans, AssigneeOf(m))
  }

  function DoctrineValue(c: Config, m: Frontmatter, k: Field): Option<Value> {
    match k
    case Assignee => if Cleared(c, m) then Some(Str("")) else Get(m, k)
    case PreviousAssignee => if Cleared(c, m) && AssigneeOf(m) != "" then Some(Str(AssigneeOf(m))) else Get(m, k)
    case TargetVault => if k in m then Get(m, k) else Some(Str(c.vault))
    case CurrentJob =>
      if c.lib.Terminal(m) && k in m && m[k] != Null && m[k] != Str("") then Some(Str("")) else Get(m, k)
    case _ => Get(m, k)
  }

  lemma ParkingClears(c: Config, m: Frontmatter)
    ensures Parking(c, m) == if Cleared(c, m) then ClearAssignee(m) else m
  {
    hide TriggerCapped;
    var once := ClearAssignee(m);
    assert AssigneeOf(once) == "" && InHumanReview(once) == InHumanReview(m);
    assert ClearAssignee(once) == once;
  }

  lemma StampsPointwise(c: Config, p: Frontmatter, k: Field)
    ensures Get(ClearCurrentJobIfTerminal(c.lib, HealTargetVault(p, c.vault)), k)
         == if k == TargetVault && k !in p then Some(Str(c.vault))
            else if k == CurrentJob && c.lib.Terminal(p) && k in p && p[k] != Null && p[k] != Str("") then Some(Str(""))
            else Get(p, k)
  {
    assert Get(HealTargetVault(p, c.vault), Status) == Get(p, Status);
  }

  lemma DoctrinesPointwise(c: Config, m: Frontmatter, k: Field)
    ensures Get(Doctrines(c, m), k) == DoctrineValue(c, m, k)
  {
    ParkingClears(c, m);
    StampsPointwise(c, Parking(c, m), k);
    hide Parking, Cleared, ClearCurrentJobIfTerminal, HealTargetVault;
    assert Get(Parking(c, m), Status) == Get(m, Status);
  }

  /** What the doctrines read is the same in records that are the same. */
  lemma SameReadings(lib: Library, a: Frontmatter, b: Frontmatter)
    requires forall k :: k in {TriggerCount, MaxTriggers, Ref, Status, Phase} ==> SameValue(Get(a, k), Get(b, k))
    ensures TriggerCapped(a) == TriggerCapped(b)
    ensures InHumanReview(a) == InHumanReview(b) && lib.Terminal(a) == lib.Terminal(b)
  {
    assert SameValue(Get(a, TriggerCount), Get(b, TriggerCount)) && SameValue(Get(a, MaxTriggers), Get(b, MaxTriggers));
    assert SameValue(Get(a, Ref), Get(b, Ref)) && SameValue(Get(a, Status), Get(b, Status));
    assert SameValue(Get(a, Phase), Get(b, Phase));
    SameInt(Get(a, TriggerCount), Get(b, TriggerCount), 0);
    SameInt(Get(a, MaxTriggers), Get(b, MaxTriggers), DEFAULT_CAP);
  }

  lemma SameInt(a: Option<Value>, b: Option<Value>, default: int)
    requires SameValue(a, b)
    ensures IntOf(a, default) == IntOf(b, default)
  {
  }

  // ---------------------------------------------------------------- redelivery

  /** After the PATCH has landed, the guard sees the same command ask for the same. */
  lemma GuardedAgain(updates: Frontmatter, fm: Frontmatter, fm1: Frontmatter, k: Field)
    requires k in updates ==> k != MaxTriggers && k != TriggerScope
    ensures Get(Guarded(updates, fm1), k) == if k in updates then Some(updates[k]) else Get(fm1, k)
    ensures Get(Guarded(updates, fm), k) == if k in updates then Some(updates[k]) else Get(fm, k)
  {
  }

  lemma GuardedStable(c: Config, updates: Frontmatter, fm: Frontmatter, k: Field)
    requires k != Assignee && k != PreviousAssignee && k != TargetVault && k != CurrentJob
    ensures SameValue(Get(Guarded(updates, fm + Patch(c, updates, fm)), k), Get(Guarded(updates, fm), k))
  {
    hide Patch, Guarded, Wanted, Doctrines;
    var fm1, m := fm + Patch(c, updates, fm), Guarded(updates, fm);
    PatchIsMerge(c, updates, fm);
    DoctrinesPointwise(c, m, k);
    assert Wanted(c, updates, fm) == Doctrines(c, m) by { WantedIs(c, updates, fm); }
    assert SameValue(Get(fm1, k), Get(m, k));
    if k in updates && (k == MaxTriggers || k == TriggerScope) {
      GuardKeyStable(updates, fm, fm1, k);
    } else {
      GuardedAgain(updates, fm, fm1, k);
      if k in updates { ValueEqualEquivalence(updates[k], updates[k], updates[k]); }
    }
  }

  lemma WantedIs(c: Config, updates: Frontmatter, fm: Frontmatter)
    ensures Wanted(c, updates, fm) == Doctrines(c, Guarded(updates, fm))
  {
  }

  lemma GuardKeyStable(updates: Frontmatter, fm: Frontmatter, fm1: Frontmatter, k: Field)
    requires k in updates && (k == MaxTriggers || k == TriggerScope)
    requires SameValue(Get(fm1, k), Get(Guarded(updates, fm), k))
    ensures SameValue(Get(Guarded(updates, fm1), k), Get(Guarded(updates, fm), k))
  {
    ValueEqualEquivalence(updates[k], updates[k], updates[k]);
  }

  /** The command names a previous_assignee of its own, the first landing overwrote it
      with the owner it cleared, and a redelivery no longer sees that owner. */
  predicate ForgetsName(c: Config, updates: Frontmatter, fm: Frontmatter) {
    var m := Guarded(updates, fm);
    && PreviousAssignee in updates && Assignee !in updates
    && Cleared(c, m) && AssigneeOf(m) != "" && updates[PreviousAssignee] != Str(AssigneeOf(m))
  }

  /** Once patched, the record already holds what the command asks for. */
  lemma SecondPatchEmpty(c: Config, updates: Frontmatter, fm: Frontmatter)
    requires !ForgetsName(c, updates, fm)
    ensures Patch(c, updates, fm + Patch(c, updates, fm)) == map[]
    ensures TriggerCapped(Guarded(updates, fm + Patch(c, updates, fm))) == TriggerCapped(Guarded(updates, fm))
  {
    hide Guarded, Patch, TriggerCapped, Doctrines, Wanted, ForgetsName;
    var fm1 := fm + Patch(c, updates, fm);
    ReadingsStable(c, updates, fm);
    forall k ensures SameValue(Get(fm1, k), Get(Wanted(c, updates, fm1), k)) {
      WantedStable(c, updates, fm, k);
    }
    NoDifference(c, updates, fm1);
  }

  lemma ReadingsStable(c: Config, updates: Frontmatter, fm: Frontmatter)
    ensures var m, m1 := Guarded(updates, fm), Guarded(updates, fm + Patch(c, updates, fm));
            TriggerCapped(m1) == TriggerCapped(m) && InHumanReview(m1) == InHumanReview(m)
            && c.lib.Terminal(m1) == c.lib.Terminal(m)
  {
    hide Guarded, Patch, TriggerCapped, Wanted;
    var m, m1 := Guarded(updates, fm), Guarded(updates, fm + Patch(c, updates, fm));
    forall k | k in {TriggerCount, MaxTriggers, Ref, Status, Phase} ensures SameValue(Get(m1, k), Get(m, k)) {
      GuardedStable(c, updates, fm, k);
    }
    SameReadings(c.lib, m1, m);
  }

  lemma NoDifference(c: Config, updates: Frontmatter, fm: Frontmatter)
    requires forall k :: SameValue(Get(fm, k), Get(Wanted(c, updates, fm), k))
    ensures Patch(c, updates, fm) == map[]
  {
    hide Wanted;
    var wanted := Wanted(c, updates, fm);
    forall k | k in wanted ensures k in fm && ValueEqual(fm[k], wanted[k]) {
      assert SameValue(Get(fm, k), Get(wanted, k));
    }
  }

  /** What the doctrines make of the patched record, for the keys they may rewrite. */
  lemma RedeliveredValue(c: Config, updates: Frontmatter, fm: Frontmatter, k: Field)
    requires k == Assignee || k == PreviousAssignee || k == TargetVault || k == CurrentJob
    ensures var fm1 := fm + Patch(c, updates, fm);
            var m, m1 := Guarded(updates, fm), Guarded(updates, fm1);
            && SameValue(Get(fm1, k), DoctrineValue(c, m, k))
            && Get(Wanted(c, updates, fm1), k) == DoctrineValue(c, m1, k)
            && Get(m1, k) == (if k in updates then Some(updates[k]) else Get(fm1, k))
            && (k in updates ==> Get(m, k) == Some(updates[k]))
  {
    hide Guarded, Patch, TriggerCapped, Doctrines, Wanted, DoctrineValue;
    var fm1 := fm + Patch(c, updates, fm);
    PatchIsMerge(c, updates, fm);
    WantedIs(c, updates, fm);
    WantedIs(c, updates, fm1);
    DoctrinesPointwise(c, Guarded(updates, fm), k);
    DoctrinesPointwise(c, Guarded(updates, fm1), k);
    GuardedAgain(updates, fm, fm1, k);
  }

  lemma WantedStable(c: Config, updates: Frontmatter, fm: Frontmatter, k: Field)
    requires !ForgetsName(c, updates, fm)
    ensures var fm1 := fm + Patch(c, updates, fm); SameValue(Get(fm1, k), Get(Wanted(c, updates, fm1), k))
  {
    hide Guarded, Patch, TriggerCapped, Doctrines, Wanted;
    var fm1 := fm + Patch(c, updates, fm);
    var m, m1 := Guarded(updates, fm), Guarded(updates, fm1);
    ReadingsStable(c, updates, fm);
    if k == Assignee || k == PreviousAssignee || k == TargetVault || k == CurrentJob {
      RedeliveredValue(c, updates, fm, Assignee);
      RedeliveredValue(c, updates, fm, k);
      DoctrineStable(c, updates, m, m1, fm1, k);
    } else {
      PlainStable(c, updates, fm, k);
    }
  }

  lemma PlainStable(c: Config, updates: Frontmatter, fm: Frontmatter, k: Field)
    requires k != Assignee && k != PreviousAssignee && k != TargetVault && k != CurrentJob
    ensures var fm1 := fm + Patch(c, updates, fm); SameValue(Get(fm1, k), Get(Wanted(c, updates, fm1), k))
  {
    hide Guarded, Patch, Doctrines, Wanted, ValueEqual;
    var fm1 := fm + Patch(c, updates, fm);
    var m, m1 := Guarded(updates, fm), Guarded(updates, fm1);
    PatchIsMerge(c, updates, fm);
    WantedIs(c, updates, fm);
    WantedIs(c, updates, fm1);
    DoctrinesPointwise(c, m, k);
    DoctrinesPointwise(c, m1, k);
    assert SameValue(Get(fm1, k), Get(m, k));
    GuardedStable(c, updates, fm, k);
    SameTrans(Get(m1, k), Get(m, k), Get(fm1, k));
  }

  lemma DoctrineStable(c: Config, updates: Frontmatter, m: Frontmatter, m1: Frontmatter, fm1: Frontmatter, k: Field)
    requires k == Assignee || k == PreviousAssignee || k == TargetVault || k == CurrentJob
    requires PreviousAssignee in updates && Assignee !in updates && Cleared(c, m) && AssigneeOf(m) != ""
             ==> updates[PreviousAssignee] == Str(AssigneeOf(m))
    requires TriggerCapped(m1) == TriggerCapped(m) && InHumanReview(m1) == InHumanReview(m)
    requires c.lib.Terminal(m1) == c.lib.Terminal(m)
    requires forall f :: f == Assignee || f == k ==>
      && SameValue(Get(fm1, f), DoctrineValue(c, m, f))
      && Get(m1, f) == (if f in updates then Some(updates[f]) else Get(fm1, f))
      && (f in updates ==> Get(m, f) == Some(updates[f]))
    ensures SameValue(Get(fm1, k), DoctrineValue(c, m1, k))
  {
    hide TriggerCapped, InHumanReview, Library.Terminal;
    assert SameValue(Get(fm1, Assignee), DoctrineValue(c, m, Assignee));
    assert SameValue(Get(fm1, k), DoctrineValue(c, m, k));
  }

  /** A redelivery after the PATCH landed changes nothing, except exactly when it
      would forget the owner it cleared. */
  lemma RedeliveryExact(c: Config, updates: Frontmatter, fm: Frontmatter)
    ensures Patch(c, updates, fm + Patch(c, updates, fm)) == map[] <==> !ForgetsName(c, updates, fm)
  {
    hide Guarded, TriggerCapped, Wanted, Library.Terminal, InHumanReview;
    if ForgetsName(c, updates, fm) {
      var fm1 := fm + Patch(c, updates, fm);
      RedeliveredValue(c, updates, fm, Assignee);
      RedeliveredValue(c, updates, fm, PreviousAssignee);
      assert Get(fm1, PreviousAssignee) == Some(Str(AssigneeOf(Guarded(updates, fm))));
      assert Get(Wanted(c, updates, fm1), PreviousAssignee) == Some(updates[PreviousAssignee]);
      assert PreviousAssignee in Patch(c, updates, fm1);
    } else {
      SecondPatchEmpty(c, updates, fm);
    }
  }

  /** Such a command: it moves the record to review and names a previous assignee. The
      first delivery records the agent it cleared instead; the second finds no agent and
      writes the name the command carries. */
  lemma RedeliveryForgets(c: Config, updates: Frontmatter, fm: Frontmatter)
    requires !IsHuman(c.humans, "agent") && fm == map[Assignee := Str("agent")]
    requires updates == map[PreviousAssignee := Str("x"), Phase := Str("human_review")]
    ensures ForgetsName(c, updates, fm) && Patch(c, updates, fm + Patch(c, updates, fm)) != map[]
  {
    hide Patch, Wanted, TriggerCapped;
    var m := Guarded(updates, fm);
    assert Get(m, Assignee) == Some(Str("agent")) && Get(m, Phase) == Some(Str("human_review"));
    RedeliveryExact(c, updates, fm);
  }

  lemma SameTrans(a: Option<Value>, b: Option<Value>, d: Option<Value>)
    requires SameValue(a, b) && SameValue(d, b)
    ensures SameValue(d, a)
  {
  }

  // ---------------------------------------------------------------- cut-off attempts

  /** Where an attempt stops: before the PUT, between PUT and PATCH, or after both
      landed (whatever it then reports). */
  datatype Cut = BeforePut | BeforePatch | Complete

  datatype Try = Try(cut: Cut, ts: string)

  /** The body the command's own section edit leaves. */
  function Edited(cmd: Command, body: string): string {
    if cmd.edit.Some? then cmd.edit.value(body) else body
  }

  function NewBody(cmd: Command, escalation: Option<CapEscalation>, ts: string, body: string): string {
    var edited := Edited(cmd, body);
    match escalation
    case Some(e) =>
      if ContainsSection(edited, TRIGGER_HEADING) then edited
      else edited + TriggerSection(ts, e.count, e.cap, e.agent)
    case None => edited
  }

  /** A command that names no field and carries no section is answered without a write. */
  predicate Empty(cmd: Command) { cmd.updates == map[] && cmd.edit.None? }

  function Attempt(c: Config, cmd: Command, try: Try, t: Task): Task {
    if Empty(cmd) then t
    else
      var body := NewBody(cmd, EscalationOf(cmd.updates, t.fm), try.ts, t.body);
      match try.cut
      case BeforePut => t
      case BeforePatch => Task(t.fm, body)
      case Complete => Task(t.fm + Patch(c, cmd.updates, t.fm), body)
  }

  function Attempts(c: Config, cmd: Command, tries: seq<Try>, t: Task): Task {
    if tries == [] then t else Attempt(c, cmd, tries[|tries| - 1], Attempts(c, cmd, tries[..|tries| - 1], t))
  }

  /** What is assumed of the library's section edit: it is idempotent, and it leaves a
      body it has already settled alone when an escalation section is written behind. */
  ghost predicate LawfulEdit(cmd: Command) {
    cmd.edit.Some? ==>
      var edit := cmd.edit.value;
      && (forall b :: edit(edit(b)) == edit(b))
      && (forall b, ts, n, cap, agent :: edit(b) == b ==>
            edit(b + TriggerSection(ts, n, cap, agent)) == b + TriggerSection(ts, n, cap, agent))
  }

  lemma AppendedIsFound(body: string, ts: string, count: int, cap: int, agent: string)
    ensures ContainsSection(body + TriggerSection(ts, count, cap, agent), TRIGGER_HEADING)
  {
    hide TriggerItems, Bullets;
    var sub, text := "\n" + TRIGGER_HEADING + "\n", TriggerSection(ts, count, cap, agent);
    var rest := "\n" + Bullets(TriggerItems(ts, count, cap, agent));
    assert text == sub + rest;
    assert (body + text)[|body|..|body| + |sub|] == sub;
    assert OccursAt(body + text, sub, |body|);
  }

  /** The body half is idempotent once it has landed, whoever the retry names. */
  lemma NewBodyAgain(cmd: Command, e: Option<CapEscalation>, e': Option<CapEscalation>, ts: string, ts': string, b: string)
    requires LawfulEdit(cmd) && e.Some? == e'.Some?
    ensures NewBody(cmd, e', ts', NewBody(cmd, e, ts, b)) == NewBody(cmd, e, ts, b)
  {
    hide ContainsSection, TriggerSection;
    var edited := Edited(cmd, b);
    if e.Some? {
      AppendedIsFound(edited, ts, e.value.count, e.value.cap, e.value.agent);
    }
  }

  function Done(c: Config, cmd: Command, ts: string, t: Task): Task {
    Attempt(c, cmd, Try(Complete, ts), t)
  }

  /** Where cut-off attempts can leave the record: untouched, or with the body half or
      both halves of a single attempt at one of the times. */
  ghost predicate Partial(c: Config, cmd: Command, times: set<string>, t: Task, s: Task) {
    || s == t
    || exists ts :: ts in times && (s == Attempt(c, cmd, Try(BeforePatch, ts), t) || s == Done(c, cmd, ts, t))
  }

  lemma AttemptAgain(c: Config, cmd: Command, t: Task, ts: string, try: Try)
    requires LawfulEdit(cmd) && !ForgetsName(c, cmd.updates, t.fm)
    ensures Attempt(c, cmd, try, Done(c, cmd, ts, t)) == Done(c, cmd, ts, t)
    ensures Attempt(c, cmd, try, Attempt(c, cmd, Try(BeforePatch, ts), t))
         == if try.cut == Complete then Done(c, cmd, ts, t) else Attempt(c, cmd, Try(BeforePatch, ts), t)
  {
    hide Patch, NewBody, LawfulEdit, ForgetsName, Guarded, TriggerCapped;
    var e := EscalationOf(cmd.updates, t.fm);
    SecondPatchEmpty(c, cmd.updates, t.fm);
    NewBodyAgain(cmd, e, e, ts, try.ts, t.body);
    NewBodyAgain(cmd, e, EscalationOf(cmd.updates, Done(c, cmd, ts, t).fm), ts, try.ts, t.body);
  }

  lemma {:induction false} PartialAttempts(c: Config, cmd: Command, t: Task, tries: seq<Try>)
    requires LawfulEdit(cmd) && !ForgetsName(c, cmd.updates, t.fm)
    ensures Partial(c, cmd, set try | try in tries :: try.ts, t, Attempts(c, cmd, tries, t))
  {
    hide Attempt, Done, LawfulEdit, ForgetsName;
    if tries != [] {
      var init, last := tries[..|tries| - 1], tries[|tries| - 1];
      PartialAttempts(c, cmd, t, init);
      var s := Attempts(c, cmd, init, t);
      var times := set try | try in tries :: try.ts;
      assert last in tries && forall try :: try in init ==> try in tries;
      if s == t {
        LastAttempt(c, cmd, t, last);
      } else {
        var ts :| ts in (set try | try in init :: try.ts)
                  && (s == Attempt(c, cmd, Try(BeforePatch, ts), t) || s == Done(c, cmd, ts, t));
        AttemptAgain(c, cmd, t, ts, last);
        assert ts in times;
      }
    }
  }

  lemma LastAttempt(c: Config, cmd: Command, t: Task, try: Try)
    ensures Attempt(c, cmd, try, t) == t || Attempt(c, cmd, try, t) == Attempt(c, cmd, Try(BeforePatch, try.ts), t)
            || Attempt(c, cmd, try, t) == Done(c, cmd, try.ts, t)
  {
    assert try.cut == Complete ==> try == Try(Complete, try.ts);
    assert try.cut == BeforePatch ==> try == Try(BeforePatch, try.ts);
  }

  /** Retry equivalence: any number of cut-off attempts, then one that goes through,
      leave what a single attempt at one of those times would have left. */
  lemma RetryEquivalence(c: Config, cmd: Command, t: Task, tries: seq<Try>, ts: string)
    requires LawfulEdit(cmd) && !ForgetsName(c, cmd.updates, t.fm)
    ensures exists at :: at in (set try | try in tries :: try.ts) + {ts}
              && Attempts(c, cmd, tries + [Try(Complete, ts)], t) == Done(c, cmd, at, t)
  {
    hide Attempt, LawfulEdit, ForgetsName;
    PartialAttempts(c, cmd, t, tries);
    var s := Attempts(c, cmd, tries, t);
    var all := tries + [Try(Complete, ts)];
    assert all[..|all| - 1] == tries;
    if s == t {
      assert Attempts(c, cmd, all, t) == Done(c, cmd, ts, t);
    } else {
      var at :| at in (set try | try in tries :: try.ts)
                && (s == Attempt(c, cmd, Try(BeforePatch, at), t) || s == Done(c, cmd, at, t));
      AttemptAgain(c, cmd, t, at, Try(Complete, ts));
      assert Attempts(c, cmd, all, t) == Done(c, cmd, at, t);
    }
  }

  /** What the record says in the end, when the command takes it to its cap: behind the
      edited body one escalation section, which names the assignee the first attempt
      found, however many attempts cleared that assignee since. */
  lemma RetriesEscalateOnce(c: Config, cmd: Command, t: Task, tries: seq<Try>, ts: string)
    requires LawfulEdit(cmd) && !ForgetsName(c, cmd.updates, t.fm) && !Empty(cmd)
    requires EscalationOf(cmd.updates, t.fm).Some?
    requires Terminated(Edited(cmd, t.body)) && !Names(SplitBody(Edited(cmd, t.body)).sections, TRIGGER_HEADING)
    requires OneLine(ts) && OneLine(EscalationOf(cmd.updates, t.fm).value.agent)
    requires forall try :: try in tries ==> OneLine(try.ts)
    ensures var end, e := Attempts(c, cmd, tries + [Try(Complete, ts)], t), EscalationOf(cmd.updates, t.fm).value;
            && ExactlyOne(end.body, TRIGGER_HEADING)
            && (exists at :: end.body == Edited(cmd, t.body) + TriggerSection(at, e.count, e.cap, e.agent))
            && e.agent == if Assignee in cmd.updates then AssigneeOf(cmd.updates) else AssigneeOf(t.fm)
  {
    hide *;
    var e, edited := EscalationOf(cmd.updates, t.fm).value, Edited(cmd, t.body);
    RetryEquivalence(c, cmd, t, tries, ts);
    var at :| at in (set try | try in tries :: try.ts) + {ts}
              && Attempts(c, cmd, tries + [Try(Complete, ts)], t) == Done(c, cmd, at, t);
    HeadingNames();
    UnnamedIsUnseen(edited, TRIGGER_HEADING);
    TriggerSectionAddsOne(edited, at, e.count, e.cap, e.agent);
    DoneBody(c, cmd, at, t);
    EscalatedAgent(cmd.updates, t.fm);
  }

  lemma DoneBody(c: Config, cmd: Command, ts: string, t: Task)
    requires !Empty(cmd) && EscalationOf(cmd.updates, t.fm).Some? && !ContainsSection(Edited(cmd, t.body), TRIGGER_HEADING)
    ensures var e := EscalationOf(cmd.updates, t.fm).value;
            Done(c, cmd, ts, t).body == Edited(cmd, t.body) + TriggerSection(ts, e.count, e.cap, e.agent)
  {
    hide ContainsSection, TriggerSection, Patch, EscalationOf, Edited;
  }

  lemma EscalatedAgent(updates: Frontmatter, fm: Frontmatter)
    requires EscalationOf(updates, fm).Some?
    ensures EscalationOf(updates, fm).value.agent == if Assignee in updates then AssigneeOf(updates) else AssigneeOf(fm)
  {
    hide TriggerCapped, TriggerCountOf, MaxTriggersOf;
    var m := Guarded(updates, fm);
    assert Get(m, Assignee) == if Assignee in updates then Get(updates, Assignee) else Get(fm, Assignee);
  }

  /** The effective trigger cap never rises. */
  lemma UpdateKeepsCap(c: Config, updates: Frontmatter, fm: Frontmatter)
    ensures MaxTriggersOf(fm + Patch(c, updates, fm)) <= MaxTriggersOf(fm)
  {
    hide Patch, Guarded, Wanted;
    PatchIsMerge(c, updates, fm);
    WantedIs(c, updates, fm);
    DoctrinesPointwise(c, Guarded(updates, fm), MaxTriggers);
    SameInt(Get(fm + Patch(c, updates, fm), MaxTriggers), Get(Guarded(updates, fm), MaxTriggers), DEFAULT_CAP);
    GuardBoundsCap(updates, fm);
  }

  lemma GuardBoundsCap(updates: Frontmatter, fm: Frontmatter)
    ensures MaxTriggersOf(Guarded(updates, fm)) <= MaxTriggersOf(fm)
  {
  }

  // ---------------------------------------------------------------- what an update writes

  /** The record with the named fields put in, before the doctrines: a cap on disk stands,
      a new one is let in up to the default of 3, and a scope comes only with a count. */
  lemma GuardedExact(updates: Frontmatter, fm: Frontmatter, k: Field)
    ensures Get(Guarded(updates, fm), k)
         == if k !in updates then Get(fm, k)
            else if k == MaxTriggers then
              (if k in fm then Some(fm[k])
               else if (updates[k].Int? && updates[k].i <= 3) || (updates[k].Float? && updates[k].f <= 3.0) then Some(updates[k])
               else None)
            else if k == TriggerScope && TriggerCount !in updates then Get(fm, k)
            else Some(updates[k])
  {
  }

  /** The guarded record has used up its triggers. */
  predicate UsedUp(updates: Frontmatter, fm: Frontmatter) {
    var m := Guarded(updates, fm);
    && (MaxTriggers in m || (Ref in m && m[Ref].Str?))
    && TriggerCountOf(m) != 0 && TriggerCountOf(m) >= MaxTriggersOf(m)
  }

  /** What the patched record holds, up to int and float: the guarded value, except that a
      record used up or in review is taken from an owner who is no human and remembers
      him, the vault is stamped, and a finished task has no current job. */
  lemma UpdateEffect(c: Config, updates: Frontmatter, fm: Frontmatter, k: Field)
    ensures var m, name := Guarded(updates, fm), AssigneeOf(Guarded(updates, fm));
            var clears := (UsedUp(updates, fm) || Get(m, Phase) == Some(Str("human_review"))) && !IsHuman(c.humans, name);
            SameValue(Get(fm + Patch(c, updates, fm), k),
              if k == Assignee && clears then Some(Str(""))
              else if k == PreviousAssignee && clears && name != "" then Some(Str(name))
              else if k == TargetVault && k !in m then Some(Str(c.vault))
              else if k == CurrentJob && c.lib.Terminal(m) && k in m && m[k] != Null then Some(Str(""))
              else Get(m, k))
  {
    hide Patch, Guarded, Wanted, Doctrines, TriggerCapped, UsedUp, Library.Terminal, ValueEqual, IsHuman, AssigneeOf;
    var m := Guarded(updates, fm);
    PatchIsMerge(c, updates, fm);
    WantedIs(c, updates, fm);
    DoctrinesPointwise(c, m, k);
    UsedUpIsCapped(updates, fm);
    assert SameValue(Get(fm + Patch(c, updates, fm), k), DoctrineValue(c, m, k));
  }

  lemma UsedUpIsCapped(updates: Frontmatter, fm: Frontmatter)
    ensures TriggerCapped(Guarded(updates, fm)) <==> UsedUp(updates, fm)
  {
    hide Guarded;
  }

  /** The update escalates exactly when the guarded record has used up its triggers, with
      that record's count, cap and owner. */
  lemma EscalationExact(updates: Frontmatter, fm: Frontmatter)
    ensures EscalationOf(updates, fm).Some? <==> UsedUp(updates, fm)
    ensures UsedUp(updates, fm) ==>
      var m := Guarded(updates, fm);
      EscalationOf(updates, fm).value == CapEscalation(TriggerCountOf(m), MaxTriggersOf(m), AssigneeOf(m))
  {
    hide Guarded;
  }

  /** A full attempt edits the body and appends the section exactly when it escalates and
      the edited body does not show one. */
  lemma AttemptEffect(c: Config, cmd: Command, ts: string, t: Task)
    requires !Empty(cmd)
    ensures var done, edited := Attempt(c, cmd, Try(Complete, ts), t), if cmd.edit.Some? then cmd.edit.value(t.body) else t.body;
            var m := Guarded(cmd.updates, t.fm);
            && done.fm == t.fm + Patch(c, cmd.updates, t.fm)
            && done.body == if UsedUp(cmd.updates, t.fm) && !ContainsSection(edited, TRIGGER_HEADING)
                            then edited + TriggerSection(ts, TriggerCountOf(m), MaxTriggersOf(m), AssigneeOf(m)) else edited
  {
    EscalationExact(cmd.updates, t.fm);
    hide Patch, Guarded, ContainsSection, TriggerSection, EscalationOf, UsedUp;
  }
}
