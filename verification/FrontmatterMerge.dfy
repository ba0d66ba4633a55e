/** The field-ownership merge of an agent result into the on-disk frontmatter
    (MergeFrontmatter and its apply helpers). The reference notion is pointwise:
    what each key holds afterwards, and which discards are reported. */
module FrontmatterMerge {
  import opened Records

  const CONTROLLER_OWNED: seq<Field> := [TriggerCount, TriggerScope, MaxTriggers]
  const OPERATOR_PINNED: seq<Field> := [Cluster]
  const ACCUMULATED: seq<Field> := [AgentTurns, InteractionCount]

  /** One reported discard; `kept` is None when the key is absent on disk and stays so. */
  datatype Decision = Decision(field: Field, kept: Option<Value>, rejected: Value)

  // ---------------------------------------------------------------- reference

  /** Incoming wins, else on-disk: the base merge. */
  function Overlay(e: Frontmatter, i: Frontmatter, k: Field): Option<Value> {
    if k in i then Some(i[k]) else Get(e, k)
  }

  predicate Declares(i: Frontmatter) {
    ReassignedBy in i && i[ReassignedBy].Str? && i[ReassignedBy].s != ""
  }

  /** The disk has an assignee and the payload's one is discarded or equal. */
  predicate AssigneeKept(e: Frontmatter, i: Frontmatter) {
    Assignee in e && Assignee in i && i[Assignee] != Str("") && !Declares(i)
  }

  predicate AssigneeRejected(e: Frontmatter, i: Frontmatter) {
    AssigneeKept(e, i) && !ValueEqual(e[Assignee], i[Assignee])
  }

  /** The reassignment declaration is honoured, and removed with it. */
  predicate DeclarationConsumed(e: Frontmatter, i: Frontmatter) {
    Assignee in e && Assignee in i && i[Assignee] != Str("") && Declares(i)
  }

  predicate BothNumeric(e: Frontmatter, i: Frontmatter, k: Field) {
    k in e && k in i && Numeric(e[k]).Some? && Numeric(i[k]).Some?
  }

  /** What key `k` holds after the merge. */
  function MergedValue(lib: Library, e: Frontmatter, i: Frontmatter, k: Field): Option<Value> {
    match k
    case TriggerCount => Get(e, k)
    case TriggerScope => Get(e, k)
    case MaxTriggers => Get(e, k)
    case Cluster => Get(e, k)
    case Status => if Status in e && lib.Terminal(e) then Get(e, k) else Overlay(e, i, k)
    case Assignee => if AssigneeKept(e, i) then Get(e, k) else Overlay(e, i, k)
    case PreviousAssignee => if k in e then Get(e, k) else Overlay(e, i, k)
    case TaskType => if AssigneeRejected(e, i) && k in e then Get(e, k) else Overlay(e, i, k)
    case ReassignedBy => if DeclarationConsumed(e, i) then None else Overlay(e, i, k)
    case AgentTurns => Accumulated(e, i, k)
    case InteractionCount => Accumulated(e, i, k)
    case _ => Overlay(e, i, k)
  }

  function Accumulated(e: Frontmatter, i: Frontmatter, k: Field): Option<Value> {
    if BothNumeric(e, i, k) then Some(Float(Numeric(e[k]).value + Numeric(i[k]).value))
    else if k in e then Get(e, k)
    else Overlay(e, i, k)
  }

  function Merged(lib: Library, e: Frontmatter, i: Frontmatter): (m: Frontmatter)
    ensures forall k :: Get(m, k) == MergedValue(lib, e, i, k)
  {
    map k | k in e.Keys + i.Keys && MergedValue(lib, e, i, k).Some? :: MergedValue(lib, e, i, k).value
  }

  predicate Differs(e: Frontmatter, i: Frontmatter, k: Field) {
    k in e && k in i && !ValueEqual(e[k], i[k])
  }

  predicate Reported(lib: Library, e: Frontmatter, i: Frontmatter, k: Field) {
    match k
    case TriggerCount => Differs(e, i, k)
    case TriggerScope => Differs(e, i, k)
    case MaxTriggers => Differs(e, i, k)
    case Status => Status in e && lib.Terminal(e) && Status in i && lib.StatusOf(e) != lib.StatusOf(i)
    case Cluster => k in i && (k in e ==> Differs(e, i, k))
    case Assignee => AssigneeRejected(e, i)
    case TaskType => AssigneeRejected(e, i) && Differs(e, i, k)
    case PreviousAssignee => Differs(e, i, k)
    case AgentTurns => Differs(e, i, k) && !BothNumeric(e, i, k)
    case InteractionCount => Differs(e, i, k) && !BothNumeric(e, i, k)
    case _ => false
  }

  function Report(lib: Library, e: Frontmatter, i: Frontmatter, k: Field): seq<Decision> {
    if Reported(lib, e, i, k) && k in i then [Decision(k, Get(e, k), i[k])] else []
  }

  /** The fields in the order the guards visit them. */
  const AUDIT_ORDER: seq<Field> :=
    CONTROLLER_OWNED + [Status] + OPERATOR_PINNED + [Assignee, TaskType, PreviousAssignee] + ACCUMULATED

  function Audit(lib: Library, e: Frontmatter, i: Frontmatter, fields: seq<Field>): seq<Decision> {
    if fields == [] then []
    else Audit(lib, e, i, fields[..|fields| - 1]) + Report(lib, e, i, fields[|fields| - 1])
  }

  // ---------------------------------------------------------------- the guards

  /** The keys in `done` hold their merged value, every other key the base merge. */
  ghost predicate Settled(lib: Library, e: Frontmatter, i: Frontmatter, m: Frontmatter, done: set<Field>) {
    forall k :: Get(m, k) == if k in done then MergedValue(lib, e, i, k) else Overlay(e, i, k)
  }

  lemma AuditConcat(lib: Library, e: Frontmatter, i: Frontmatter, a: seq<Field>, b: seq<Field>)
    ensures Audit(lib, e, i, a + b) == Audit(lib, e, i, a) + Audit(lib, e, i, b)
  {
    if b == [] {
      assert a + b == a;
    } else {
      assert (a + b)[..|a + b| - 1] == a + b[..|b| - 1];
      AuditConcat(lib, e, i, a, b[..|b| - 1]);
    }
  }

  /** A controller-owned key: the on-disk value wins, an absent key stays absent. */
  method KeepOnDisk(lib: Library, e: Frontmatter, i: Frontmatter, merged: Frontmatter,
                    decisions: seq<Decision>, field: Field, ghost done: set<Field>)
    returns (m: Frontmatter, ds: seq<Decision>)
    requires Settled(lib, e, i, merged, done) && field !in done
    requires field == TriggerCount || field == TriggerScope || field == MaxTriggers
    ensures Settled(lib, e, i, m, done + {field})
    ensures ds == decisions + Report(lib, e, i, field)
  {
    m, ds := merged, decisions;
    if field !in e {
      if field in i {
        m := m - {field};
      }
    } else {
      m := m[field := e[field]];
      if field in i && !ValueEqual(e[field], i[field]) {
        ds := ds + [Decision(field, Some(e[field]), i[field])];
      }
    }
  }

  method ApplyControllerOwned(lib: Library, e: Frontmatter, i: Frontmatter, merged: Frontmatter,
                              decisions: seq<Decision>)
    returns (m: Frontmatter, ds: seq<Decision>)
    requires Settled(lib, e, i, merged, {})
    ensures Settled(lib, e, i, m, {TriggerCount, TriggerScope, MaxTriggers})
    ensures ds == decisions + Audit(lib, e, i, CONTROLLER_OWNED)
  {
    hide Settled, Audit, Report;
    m, ds := merged, decisions;
    EmptyAudit(lib, e, i);
    assert Members(CONTROLLER_OWNED[..0]) == {};
    for n := 0 to |CONTROLLER_OWNED|
      invariant Settled(lib, e, i, m, Members(CONTROLLER_OWNED[..n]))
      invariant ds == decisions + Audit(lib, e, i, CONTROLLER_OWNED[..n])
    {
      var field := CONTROLLER_OWNED[n];
      AuditOneMore(lib, e, i, decisions, CONTROLLER_OWNED, n);
      ControllerFields(n);
      m, ds := KeepOnDisk(lib, e, i, m, ds, field, Members(CONTROLLER_OWNED[..n]));
    }
    ControllerFields(|CONTROLLER_OWNED|);
  }

  lemma ControllerFields(n: nat)
    requires n <= |CONTROLLER_OWNED|
    ensures n < |CONTROLLER_OWNED| ==>
      && Members(CONTROLLER_OWNED[..n + 1]) == Members(CONTROLLER_OWNED[..n]) + {CONTROLLER_OWNED[n]}
      && CONTROLLER_OWNED[n] !in Members(CONTROLLER_OWNED[..n])
      && CONTROLLER_OWNED[n] in {TriggerCount, TriggerScope, MaxTriggers}
    ensures n == |CONTROLLER_OWNED| ==>
      && CONTROLLER_OWNED[..n] == CONTROLLER_OWNED
      && Members(CONTROLLER_OWNED[..n]) == {TriggerCount, TriggerScope, MaxTriggers}
  {
    if n < |CONTROLLER_OWNED| {
      MembersOneMore(CONTROLLER_OWNED, n);
    }
  }

  lemma EmptyAudit(lib: Library, e: Frontmatter, i: Frontmatter)
    ensures Audit(lib, e, i, []) == []
  {
  }

  function Members(fields: seq<Field>): set<Field> {
    set k | k in fields
  }

  lemma MembersOneMore(fields: seq<Field>, n: nat)
    requires n < |fields|
    requires forall a, b :: 0 <= a < b < |fields| ==> fields[a] != fields[b]
    ensures Members(fields[..n + 1]) == Members(fields[..n]) + {fields[n]}
    ensures fields[n] !in Members(fields[..n])
  {
    assert fields[..n + 1] == fields[..n] + [fields[n]];
  }

  lemma AuditOneMore(lib: Library, e: Frontmatter, i: Frontmatter, before: seq<Decision>, fields: seq<Field>, n: nat)
    requires n < |fields|
    ensures before + Audit(lib, e, i, fields[..n + 1])
         == before + Audit(lib, e, i, fields[..n]) + Report(lib, e, i, fields[n])
  {
    assert fields[..n + 1][..n] == fields[..n];
  }

  method ApplyTerminalStatus(lib: Library, e: Frontmatter, i: Frontmatter, merged: Frontmatter,
                             decisions: seq<Decision>, ghost done: set<Field>)
    returns (m: Frontmatter, ds: seq<Decision>)
    requires Settled(lib, e, i, merged, done) && Status !in done
    ensures Settled(lib, e, i, m, done + {Status})
    ensures ds == decisions + Audit(lib, e, i, [Status])
  {
    m, ds := merged, decisions;
    AuditOne(lib, e, i, Status);
    if Status in e && lib.Terminal(e) {
      m := m[Status := e[Status]];
      if Status in i && lib.StatusOf(e) != lib.StatusOf(i) {
        ds := ds + [Decision(Status, Some(e[Status]), i[Status])];
      }
    }
  }

  lemma AuditOne(lib: Library, e: Frontmatter, i: Frontmatter, k: Field)
    ensures Audit(lib, e, i, [k]) == Report(lib, e, i, k)
  {
    assert [k][..0] == [];
  }

  method ApplyOperatorPinned(lib: Library, e: Frontmatter, i: Frontmatter, merged: Frontmatter,
                             decisions: seq<Decision>, ghost done: set<Field>)
    returns (m: Frontmatter, ds: seq<Decision>)
    requires Settled(lib, e, i, merged, done) && Cluster !in done
    ensures Settled(lib, e, i, m, done + {Cluster})
    ensures ds == decisions + Audit(lib, e, i, OPERATOR_PINNED)
  {
    m, ds := merged, decisions;
    AuditOne(lib, e, i, Cluster);
    for n := 0 to |OPERATOR_PINNED|
      invariant Settled(lib, e, i, m, if n == 0 then done else done + {Cluster})
      invariant ds == decisions + (if n == 0 then [] else Report(lib, e, i, Cluster))
    {
      var field := OPERATOR_PINNED[n];
      if field in i {
        if field !in e {
          m := m - {field};
          ds := ds + [Decision(field, None, i[field])];
        } else {
          m := m[field := e[field]];
          if !ValueEqual(e[field], i[field]) {
            ds := ds + [Decision(field, Some(e[field]), i[field])];
          }
        }
      }
    }
  }

  /** assignee, with the clear, the reassignment declaration and the routing tuple. */
  method ApplyAssignee(lib: Library, e: Frontmatter, i: Frontmatter, merged: Frontmatter,
                       decisions: seq<Decision>, ghost done: set<Field>)
    returns (m: Frontmatter, ds: seq<Decision>)
    requires Settled(lib, e, i, merged, done) && done !! {Assignee, TaskType, ReassignedBy}
    ensures Settled(lib, e, i, m, done + {Assignee, TaskType, ReassignedBy})
    ensures ds == decisions + Audit(lib, e, i, [Assignee, TaskType])
  {
    m, ds := merged, decisions;
    assert [Assignee, TaskType][..1] == [Assignee];
    AuditOne(lib, e, i, Assignee);
    if Assignee !in e {
      return;
    }
    if Assignee in i && i[Assignee] == Str("") {
      m := m[Assignee := i[Assignee]];
      return;
    }
    if Assignee in i && Declares(i) {
      m := m[Assignee := i[Assignee]] - {ReassignedBy};
      return;
    }
    m := m[Assignee := e[Assignee]];
    if Assignee in i && !ValueEqual(e[Assignee], i[Assignee]) {
      ds := ds + [Decision(Assignee, Some(e[Assignee]), i[Assignee])];
      if TaskType in e && TaskType in i {
        m := m[TaskType := e[TaskType]];
        if !ValueEqual(e[TaskType], i[TaskType]) {
          ds := ds + [Decision(TaskType, Some(e[TaskType]), i[TaskType])];
        }
      }
    }
  }

  method ApplyPreviousAssignee(lib: Library, e: Frontmatter, i: Frontmatter, merged: Frontmatter,
                               decisions: seq<Decision>, ghost done: set<Field>)
    returns (m: Frontmatter, ds: seq<Decision>)
    requires Settled(lib, e, i, merged, done) && PreviousAssignee !in done
    ensures Settled(lib, e, i, m, done + {PreviousAssignee})
    ensures ds == decisions + Audit(lib, e, i, [PreviousAssignee])
  {
    m, ds := merged, decisions;
    AuditOne(lib, e, i, PreviousAssignee);
    if PreviousAssignee in e {
      m := m[PreviousAssignee := e[PreviousAssignee]];
      if PreviousAssignee in i && !ValueEqual(e[PreviousAssignee], i[PreviousAssignee]) {
        ds := ds + [Decision(PreviousAssignee, Some(e[PreviousAssignee]), i[PreviousAssignee])];
      }
    }
  }

  method ApplyOperatorOwned(lib: Library, e: Frontmatter, i: Frontmatter, merged: Frontmatter,
                            decisions: seq<Decision>, ghost done: set<Field>)
    returns (m: Frontmatter, ds: seq<Decision>)
    requires Settled(lib, e, i, merged, done) && done !! {Assignee, TaskType, ReassignedBy, PreviousAssignee}
    ensures Settled(lib, e, i, m, done + {Assignee, TaskType, ReassignedBy, PreviousAssignee})
    ensures ds == decisions + Audit(lib, e, i, [Assignee, TaskType, PreviousAssignee])
  {
    m, ds := ApplyAssignee(lib, e, i, merged, decisions, done);
    m, ds := ApplyPreviousAssignee(lib, e, i, m, ds, done + {Assignee, TaskType, ReassignedBy});
    assert [Assignee, TaskType, PreviousAssignee] == [Assignee, TaskType] + [PreviousAssignee];
    AuditConcat(lib, e, i, [Assignee, TaskType], [PreviousAssignee]);
    assert done + {Assignee, TaskType, ReassignedBy} + {PreviousAssignee}
        == done + {Assignee, TaskType, ReassignedBy, PreviousAssignee};
  }

  /** A cumulative key: two numbers add up, otherwise the on-disk value is kept. */
  method Accumulate(lib: Library, e: Frontmatter, i: Frontmatter, merged: Frontmatter,
                    decisions: seq<Decision>, field: Field, ghost done: set<Field>)
    returns (m: Frontmatter, ds: seq<Decision>)
    requires Settled(lib, e, i, merged, done) && field !in done
    requires field == AgentTurns || field == InteractionCount
    ensures Settled(lib, e, i, m, done + {field})
    ensures ds == decisions + Report(lib, e, i, field)
  {
    m, ds := merged, decisions;
    if field in e && field in i {
      var disk, incoming := Numeric(e[field]), Numeric(i[field]);
      if disk.Some? && incoming.Some? {
        m := m[field := Float(disk.value + incoming.value)];
      } else {
        m := m[field := e[field]];
        if !ValueEqual(e[field], i[field]) {
          ds := ds + [Decision(field, Some(e[field]), i[field])];
        }
      }
    }
  }

  method ApplyAccumulated(lib: Library, e: Frontmatter, i: Frontmatter, merged: Frontmatter,
                          decisions: seq<Decision>, ghost done: set<Field>)
    returns (m: Frontmatter, ds: seq<Decision>)
    requires Settled(lib, e, i, merged, done) && done !! {AgentTurns, InteractionCount}
    ensures Settled(lib, e, i, m, done + {AgentTurns, InteractionCount})
    ensures ds == decisions + Audit(lib, e, i, ACCUMULATED)
  {
    hide Settled, Audit, Report;
    m, ds := merged, decisions;
    EmptyAudit(lib, e, i);
    assert done + Members(ACCUMULATED[..0]) == done;
    for n := 0 to |ACCUMULATED|
      invariant Settled(lib, e, i, m, done + Members(ACCUMULATED[..n]))
      invariant ds == decisions + Audit(lib, e, i, ACCUMULATED[..n])
    {
      var field := ACCUMULATED[n];
      AuditOneMore(lib, e, i, decisions, ACCUMULATED, n);
      MembersOneMore(ACCUMULATED, n);
      ghost var now := done + Members(ACCUMULATED[..n]);
      assert field !in done && now + {field} == done + Members(ACCUMULATED[..n + 1]);
      m, ds := Accumulate(lib, e, i, m, ds, field, now);
    }
    assert ACCUMULATED[..|ACCUMULATED|] == ACCUMULATED;
    assert Members(ACCUMULATED) == {AgentTurns, InteractionCount};
  }

  lemma AuditInOrder(lib: Library, e: Frontmatter, i: Frontmatter)
    ensures Audit(lib, e, i, AUDIT_ORDER)
         == Audit(lib, e, i, CONTROLLER_OWNED) + Audit(lib, e, i, [Status]) + Audit(lib, e, i, OPERATOR_PINNED)
            + Audit(lib, e, i, [Assignee, TaskType, PreviousAssignee]) + Audit(lib, e, i, ACCUMULATED)
  {
    var routing := [Assignee, TaskType, PreviousAssignee];
    var upToPinned := CONTROLLER_OWNED + [Status] + OPERATOR_PINNED;
    AuditConcat(lib, e, i, upToPinned + routing, ACCUMULATED);
    AuditConcat(lib, e, i, upToPinned, routing);
    AuditConcat(lib, e, i, CONTROLLER_OWNED + [Status], OPERATOR_PINNED);
    AuditConcat(lib, e, i, CONTROLLER_OWNED, [Status]);
  }

  lemma BaseSettled(lib: Library, e: Frontmatter, i: Frontmatter)
    ensures Settled(lib, e, i, e + i, {})
  {
  }

  /** The guards on fields that no agent may write. */
  method ApplyPinning(lib: Library, e: Frontmatter, i: Frontmatter)
    returns (m: Frontmatter, ds: seq<Decision>)
    ensures Settled(lib, e, i, m, {TriggerCount, TriggerScope, MaxTriggers, Status, Cluster})
    ensures ds == Audit(lib, e, i, CONTROLLER_OWNED) + Audit(lib, e, i, [Status]) + Audit(lib, e, i, OPERATOR_PINNED)
  {
    BaseSettled(lib, e, i);
    hide Settled, Audit;
    m, ds := e + i, [];
    m, ds := ApplyControllerOwned(lib, e, i, m, ds);
    m, ds := ApplyTerminalStatus(lib, e, i, m, ds, {TriggerCount, TriggerScope, MaxTriggers});
    assert {TriggerCount, TriggerScope, MaxTriggers} + {Status} == {TriggerCount, TriggerScope, MaxTriggers, Status};
    m, ds := ApplyOperatorPinned(lib, e, i, m, ds, {TriggerCount, TriggerScope, MaxTriggers, Status});
    assert {TriggerCount, TriggerScope, MaxTriggers, Status} + {Cluster}
        == {TriggerCount, TriggerScope, MaxTriggers, Status, Cluster};
  }

  /** MergeFrontmatter: the guards, applied in turn to the base merge, produce the
      pointwise merge and report exactly the discards of the audit. */
  method MergeFrontmatter(lib: Library, existing: Frontmatter, incoming: Frontmatter)
    returns (merged: Frontmatter, decisions: seq<Decision>)
    ensures merged == Merged(lib, existing, incoming)
    ensures decisions == Audit(lib, existing, incoming, AUDIT_ORDER)
  {
    hide Settled, Audit, Merged;
    ghost var done := {TriggerCount, TriggerScope, MaxTriggers, Status, Cluster};
    merged, decisions := ApplyPinning(lib, existing, incoming);
    merged, decisions := ApplyOperatorOwned(lib, existing, incoming, merged, decisions, done);
    done := done + {Assignee, TaskType, ReassignedBy, PreviousAssignee};
    merged, decisions := ApplyAccumulated(lib, existing, incoming, merged, decisions, done);
    SettledIsMerged(lib, existing, incoming, merged, done + {AgentTurns, InteractionCount});
    AuditInOrder(lib, existing, incoming);
  }

  lemma SettledIsMerged(lib: Library, e: Frontmatter, i: Frontmatter, m: Frontmatter, done: set<Field>)
    requires Settled(lib, e, i, m, done)
    requires done == {TriggerCount, TriggerScope, MaxTriggers, Status, Cluster, Assignee, TaskType, ReassignedBy,
                      PreviousAssignee, AgentTurns, InteractionCount}
    ensures m == Merged(lib, e, i)
  {
    forall k ensures Get(m, k) == Get(Merged(lib, e, i), k) {
      assert k !in done ==> MergedValue(lib, e, i, k) == Overlay(e, i, k);
    }
    SameLookups(m, Merged(lib, e, i));
  }

  lemma SameLookups(a: Frontmatter, b: Frontmatter)
    requires forall k :: Get(a, k) == Get(b, k)
    ensures a == b
  {
    assert forall k :: k in a <==> Get(a, k).Some?;
    assert forall k :: k in b <==> Get(b, k).Some?;
    assert forall k :: k in a ==> Some(a[k]) == Get(a, k);
    assert forall k :: k in b ==> Some(b[k]) == Get(b, k);
  }

  // ---------------------------------------------------------------- the audit

  /** The incoming value for `k` did not make it into the merged map. */
  predicate Lost(lib: Library, e: Frontmatter, i: Frontmatter, k: Field) {
    k in i && (MergedValue(lib, e, i, k) == None || !ValueEqual(MergedValue(lib, e, i, k).value, i[k]))
  }

  /** The discards the guard deliberately does not report. */
  predicate Exempt(lib: Library, e: Frontmatter, i: Frontmatter, k: Field) {
    || (k in CONTROLLER_OWNED && k !in e)
    || (k == Status && lib.Terminal(e) && lib.StatusOf(e) == lib.StatusOf(i))
    || (k == ReassignedBy && DeclarationConsumed(e, i))
    || (k in ACCUMULATED && BothNumeric(e, i, k))
  }

  lemma AuditMembers(lib: Library, e: Frontmatter, i: Frontmatter, fields: seq<Field>)
    requires forall a, b :: 0 <= a < b < |fields| ==> fields[a] != fields[b]
    ensures var ds := Audit(lib, e, i, fields);
            && (forall d :: d in ds ==> d.field in fields && d in Report(lib, e, i, d.field))
            && (forall k :: k in fields ==> forall d :: d in Report(lib, e, i, k) ==> d in ds)
            && (forall a, b :: 0 <= a < b < |ds| ==> ds[a].field != ds[b].field)
  {
    if fields != [] {
      var init, last := fields[..|fields| - 1], fields[|fields| - 1];
      AuditMembers(lib, e, i, init);
      assert fields == init + [last] && last !in init;
    }
  }

  /** The audit is exact: a value is lost without an exemption exactly when one (and
      only one) decision names it, and every decision tells what the merged map holds. */
  lemma AuditExact(lib: Library, e: Frontmatter, i: Frontmatter)
    ensures var ds := Audit(lib, e, i, AUDIT_ORDER);
            && (forall k :: (exists d :: d in ds && d.field == k) <==> Lost(lib, e, i, k) && !Exempt(lib, e, i, k))
            && (forall a, b :: 0 <= a < b < |ds| ==> ds[a].field != ds[b].field)
            && (forall d :: d in ds ==>
                  d.field in i && d.rejected == i[d.field] && d.kept == Get(Merged(lib, e, i), d.field))
  {
    var ds := Audit(lib, e, i, AUDIT_ORDER);
    AuditMembers(lib, e, i, AUDIT_ORDER);
    forall k ensures (exists d :: d in ds && d.field == k) <==> Lost(lib, e, i, k) && !Exempt(lib, e, i, k) {
      ReportedIffLost(lib, e, i, k);
      if Reported(lib, e, i, k) {
        ReportedFields(lib, e, i, k);
        assert Decision(k, Get(e, k), i[k]) in Report(lib, e, i, k);
        assert Decision(k, Get(e, k), i[k]) in ds;
      }
    }
    forall d | d in ds ensures d.kept == Get(Merged(lib, e, i), d.field) {
      ReportedFields(lib, e, i, d.field);
    }
  }

  lemma ReportedIffLost(lib: Library, e: Frontmatter, i: Frontmatter, k: Field)
    ensures Reported(lib, e, i, k) <==> Lost(lib, e, i, k) && !Exempt(lib, e, i, k)
  {
    if k in i && MergedValue(lib, e, i, k) == Some(i[k]) {
      assert ValueEqual(i[k], i[k]);
    }
    match k
    case Status =>
    case Assignee =>
    case TaskType =>
    case ReassignedBy =>
    case _ =>
  }

  lemma ReportedFields(lib: Library, e: Frontmatter, i: Frontmatter, k: Field)
    requires Reported(lib, e, i, k)
    ensures k in AUDIT_ORDER && k in i && MergedValue(lib, e, i, k) == Get(e, k)
  {
    assert AUDIT_ORDER == [TriggerCount, TriggerScope, MaxTriggers, Status, Cluster, Assignee, TaskType,
                           PreviousAssignee, AgentTurns, InteractionCount];
  }

  /** The routing tuple travels together: a rejected assignee keeps the on-disk task type. */
  lemma RoutingTupleTogether(lib: Library, e: Frontmatter, i: Frontmatter)
    requires AssigneeRejected(e, i) && TaskType in e
    ensures Get(Merged(lib, e, i), Assignee) == Get(e, Assignee)
    ensures Get(Merged(lib, e, i), TaskType) == Get(e, TaskType)
  {
  }

  /** A declaration is meant never to reach the disk. It does exactly when there was
      no assignee to re-route: none on disk, none in the payload, or an empty one. */
  lemma DeclarationLands(lib: Library, e: Frontmatter, i: Frontmatter)
    requires ReassignedBy !in e && Declares(i)
    ensures ReassignedBy in Merged(lib, e, i) <==> Assignee !in e || Assignee !in i || i[Assignee] == Str("")
  {
    assert Get(Merged(lib, e, i), ReassignedBy) == MergedValue(lib, e, i, ReassignedBy);
  }

  // ---------------------------------------------------------------- what the merge holds, key by key

  /** What the payload does not name stays as it is on disk. */
  lemma AbsentKeysStay(lib: Library, e: Frontmatter, i: Frontmatter, k: Field)
    requires k !in i
    ensures Get(Merged(lib, e, i), k) == Get(e, k)
  {
    assert Get(Merged(lib, e, i), k) == MergedValue(lib, e, i, k);
  }

  /** What the disk does not name lands as the payload has it, unless only the controller
      or the operator may introduce it; a declaration that is honoured is used up. */
  lemma NewKeysLand(lib: Library, e: Frontmatter, i: Frontmatter, k: Field)
    requires k in i && k !in e
    ensures Get(Merged(lib, e, i), k)
         == if k in {TriggerCount, TriggerScope, MaxTriggers, Cluster} then None
            else if k == ReassignedBy && Reassigns(e, i) then None
            else Some(i[k])
  {
    assert Get(Merged(lib, e, i), k) == MergedValue(lib, e, i, k);
  }

  /** The payload re-routes an owned record and says who decided that. */
  predicate Reassigns(e: Frontmatter, i: Frontmatter) {
    && Assignee in e && Assignee in i && i[Assignee] != Str("")
    && ReassignedBy in i && i[ReassignedBy].Str? && i[ReassignedBy] != Str("")
  }

  /** Which side wins a key both name: the disk for what the controller or the operator
      owns, the sum for counters, else the payload. An owner yields only to a clear or to
      a declared reassignment, and a refused owner keeps its task type. */
  lemma SharedKeys(lib: Library, e: Frontmatter, i: Frontmatter, k: Field)
    requires k in e && k in i
    ensures Get(Merged(lib, e, i), k)
         == if k in {TriggerCount, TriggerScope, MaxTriggers, Cluster, PreviousAssignee} then Some(e[k])
            else if k == Status then Some(if lib.Terminal(e) then e[k] else i[k])
            else if k == Assignee then Some(if i[k] == Str("") || Reassigns(e, i) then i[k] else e[k])
            else if k == TaskType then
              Some(if Assignee in e && Assignee in i && i[Assignee] != Str("") && !ValueEqual(e[Assignee], i[Assignee])
                      && !Reassigns(e, i) then e[k] else i[k])
            else if k == ReassignedBy then (if Reassigns(e, i) then None else Some(i[k]))
            else if k in {AgentTurns, InteractionCount} then
              Some(if Numeric(e[k]).Some? && Numeric(i[k]).Some? then Float(Numeric(e[k]).value + Numeric(i[k]).value) else e[k])
            else Some(i[k])
  {
    assert Get(Merged(lib, e, i), k) == MergedValue(lib, e, i, k);
  }
}
