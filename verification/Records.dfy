/** Task records as the controller sees them: a frontmatter map beside a markdown
    body, the accessors every writer reads it through, and the small in-place
    transforms (assignee clears, vault stamp, stale-job clear) the writers share. */
module Records {

  datatype Option<+T> = None | Some(value: T)

  /** A frontmatter key. The keys the controller interprets are named; every other
      key is `Custom`. */
  datatype Field =
    | Status | Phase | Assignee | PreviousAssignee | TaskType
    | TriggerCount | TriggerScope | MaxTriggers | Ref
    | RetryCount | MaxRetries | PlanningRetryCount
    | SpawnNotification | CurrentJob | Cluster | TargetVault | ReassignedBy
    | AgentTurns | InteractionCount
    | TaskIdentifier | TaskIdentifierPrevious
    | CompletedDate | ProcessedAt | RecoverySha
    | Custom(name: string)

  /** A decoded frontmatter value. `Composite` stands for a sequence or a mapping. */
  datatype Value =
    | Null
    | Bool(b: bool)
    | Str(s: string)
    | Int(i: int)
    | Float(f: real)
    | Composite(repr: string)

  type Frontmatter = map<Field, Value>

  datatype Task = Task(fm: Frontmatter, body: string)

  function Get(fm: Frontmatter, k: Field): Option<Value> {
    if k in fm then Some(fm[k]) else None
  }

  /** numericValue: the number a value denotes, if it is numeric. */
  function Numeric(v: Value): Option<real> {
    match v
    case Int(i) => Some(i as real)
    case Float(f) => Some(f)
    case _ => None
  }

  /** FrontmatterValueEqual: numbers compare by value, everything else structurally. */
  predicate ValueEqual(a: Value, b: Value) {
    if Numeric(a).Some? && Numeric(b).Some? then Numeric(a) == Numeric(b) else a == b
  }

  function Truncate(f: real): int {
    if f >= 0.0 then f.Floor else -((-f).Floor)
  }

  /** The library's integer accessor: a numeric value truncated toward zero, else the default. */
  function IntOf(v: Option<Value>, default: int): int {
    match v
    case Some(Int(i)) => i
    case Some(Float(f)) => Truncate(f)
    case _ => default
  }

  const DEFAULT_CAP := 3

  function TriggerCountOf(fm: Frontmatter): int { IntOf(Get(fm, TriggerCount), 0) }
  function MaxTriggersOf(fm: Frontmatter): int { IntOf(Get(fm, MaxTriggers), DEFAULT_CAP) }
  function RetryCountOf(fm: Frontmatter): int { IntOf(Get(fm, RetryCount), 0) }
  function MaxRetriesOf(fm: Frontmatter): int { IntOf(Get(fm, MaxRetries), DEFAULT_CAP) }

  function StringOf(fm: Frontmatter, k: Field): string {
    match Get(fm, k)
    case Some(Str(s)) => s
    case _ => ""
  }

  function AssigneeOf(fm: Frontmatter): string { StringOf(fm, Assignee) }

  /** The two canonicalising accessors of the task library, whose alias tables are
      not part of this repository: `status` maps a raw status to its canonical name,
      `phase` maps a raw phase to its canonical name, or to none when it is no phase. */
  datatype Library = Library(status: string -> string, phase: string -> Option<string>) {

    function StatusOf(fm: Frontmatter): string {
      match Get(fm, Status)
      case Some(Str(s)) => status(s)
      case _ => ""
    }

    function PhaseOf(fm: Frontmatter): Option<string> {
      match Get(fm, Phase)
      case Some(Str(s)) => phase(s)
      case _ => None
    }

    predicate Terminal(fm: Frontmatter) {
      StatusOf(fm) == "completed" || StatusOf(fm) == "aborted"
    }

    /** Canonical names are their own canonical form. */
    ghost predicate CanonicalPhases() {
      forall p :: phase(p).Some? ==> phase(phase(p).value) == phase(p)
    }
  }

  /** HumanAssignees.Contains: the empty name is never a human. */
  predicate IsHuman(humans: set<string>, name: string) {
    name != "" && name in humans
  }

  predicate TriggerCapEngaged(fm: Frontmatter) {
    MaxTriggers in fm || (Ref in fm && fm[Ref].Str?)
  }

  /** The cap is engaged and the (non-zero) count has reached it. */
  predicate TriggerCapped(fm: Frontmatter) {
    TriggerCapEngaged(fm) && TriggerCountOf(fm) != 0 && TriggerCountOf(fm) >= MaxTriggersOf(fm)
  }

  function ClearAssignee(fm: Frontmatter): Frontmatter {
    var name := AssigneeOf(fm);
    (if name != "" then fm[PreviousAssignee := Str(name)] else fm)[Assignee := Str("")]
  }

  function ClearAssigneeUnlessHuman(humans: set<string>, fm: Frontmatter): Frontmatter {
    if IsHuman(humans, AssigneeOf(fm)) then fm else ClearAssignee(fm)
  }

  predicate InHumanReview(fm: Frontmatter) {
    Get(fm, Phase) == Some(Str("human_review"))
  }

  function ClearAssigneeIfHumanReview(humans: set<string>, fm: Frontmatter): Frontmatter {
    if !InHumanReview(fm) then fm
    else ClearAssigneeUnlessHuman(humans, fm)
  }

  function HealTargetVault(fm: Frontmatter, vault: string): Frontmatter {
    if TargetVault in fm then fm else fm[TargetVault := Str(vault)]
  }

  function ClearCurrentJobIfTerminal(lib: Library, fm: Frontmatter): Frontmatter {
    if lib.Terminal(fm) && CurrentJob in fm && fm[CurrentJob] != Null && fm[CurrentJob] != Str("")
    then fm[CurrentJob := Str("")]
    else fm
  }

  // ---------------------------------------------------------------- what the accessors mean

  /** Equality of values: the same number, whole or not, or else the very same value. */
  lemma ValueEqualExact(a: Value, b: Value)
    ensures ValueEqual(a, b) <==>
      || a == b
      || (a.Int? && b.Float? && a.i as real == b.f)
      || (a.Float? && b.Int? && a.f == b.i as real)
  {
  }

  /** Reading an integer truncates toward zero: the whole number of the same sign that is
      nearest from below in magnitude. */
  lemma IntOfExact(v: Value, default: int)
    ensures v.Int? ==> IntOf(Some(v), default) == v.i
    ensures v.Float? && v.f >= 0.0 ==> IntOf(Some(v), default) as real <= v.f < IntOf(Some(v), default) as real + 1.0
    ensures v.Float? && v.f <= 0.0 ==> IntOf(Some(v), default) as real - 1.0 < v.f <= IntOf(Some(v), default) as real
    ensures !v.Int? && !v.Float? ==> IntOf(Some(v), default) == default
    ensures IntOf(None, default) == default
  {
  }
}
