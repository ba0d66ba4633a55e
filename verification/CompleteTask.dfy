/** Closing a task: PATCH the frontmatter, re-read, PUT the body with a Resolution
    section appended. Closers run concurrently and may be cut off at any request; the
    properties hold for every interleaving. */
module CompleteTask {
  import opened Records
  import opened BodyMerge
  import opened Text
  import opened Escalation
  import opened ResultWriter

  datatype CloseCommand = CloseCommand(recoverySha: string, ts: string)

  predicate IsResolutionHeading(line: string) {
    Trim(line) == "# Resolution" || Trim(line) == "## Resolution"
  }

  function Resolutions(body: string): nat {
    Count(Lines(body), IsResolutionHeading)
  }

  /** hasResolutionSection */
  method HasResolutionSection(body: string) returns (found: bool)
    ensures found <==> Resolutions(body) > 0
  {
    hide IsResolutionHeading;
    var lines := Lines(body);
    for n := 0 to |lines|
      invariant forall k :: 0 <= k < n ==> !IsResolutionHeading(lines[k])
    {
      if IsResolutionHeading(lines[n]) {
        CountMember(lines, IsResolutionHeading);
        return true;
      }
    }
    CountMember(lines, IsResolutionHeading);
    return false;
  }

  function CompletePatch(c: Config, cmd: CloseCommand, fm: Frontmatter): Frontmatter {
    var base := map[Status := Str("completed"), Phase := Str("done"),
                    CompletedDate := Str(cmd.ts), ProcessedAt := Str(cmd.ts)];
    var sha := if cmd.recoverySha != "" then base[RecoverySha := Str(cmd.recoverySha)] else base;
    if TargetVault in fm then sha else sha[TargetVault := Str(c.vault)]
  }

  function ResolutionLines(cmd: CloseCommand): (ls: seq<string>)
    ensures ls != []
  {
    ["", "- **Verdict:** green"]
    + (if cmd.recoverySha != "" then ["- **Recovery SHA:** `" + cmd.recoverySha + "`"] else [])
    + ["- **Closed at:** " + cmd.ts, ""]
  }

  function ResolutionBody(body: string, cmd: CloseCommand): string {
    var closed := if HasText(body) && !HasSuffix(body, "\n") then body + "\n" else body;
    closed + "\n" + ("## Resolution" + "\n" + JoinLines(ResolutionLines(cmd)))
  }

  // ---------------------------------------------------------------- one more section

  lemma CountMember(ls: seq<string>, p: string -> bool)
    ensures Count(ls, p) > 0 <==> exists l :: l in ls && p(l)
  {
  }

  lemma ResolutionsAppend(a: string, b: string)
    ensures Resolutions(a + "\n" + b) == Resolutions(a) + Resolutions(b)
  {
    LinesConcat(a, b);
    CountConcat(Lines(a), Lines(b), IsResolutionHeading);
  }

  lemma DashIsNoHeading(line: string)
    requires line != "" && line[0] == '-'
    ensures !IsResolutionHeading(line)
  {
    assert TrimLeft(line) == line;
    TrimRightPrefix(line);
  }

  lemma {:induction false} PlainLines(ls: seq<string>)
    requires ls != [] && forall l :: l in ls ==> OneLine(l) && (l == "" || l[0] == '-')
    ensures Resolutions(JoinLines(ls)) == 0
  {
    PlainLine(ls[0]);
    if |ls| > 1 {
      PlainLines(ls[1..]);
      ResolutionsAppend(ls[0], JoinLines(ls[1..]));
    }
  }

  lemma PlainLine(l: string)
    requires OneLine(l) && (l == "" || l[0] == '-')
    ensures Resolutions(l) == 0
  {
    OneLineLines(l);
    if l != "" { DashIsNoHeading(l); }
    assert Count([l], IsResolutionHeading) == (if IsResolutionHeading(l) then 1 else 0) + Count([l][1..], IsResolutionHeading);
  }

  lemma TheHeading()
    ensures Resolutions("## Resolution") == 1
  {
    var h := "## Resolution";
    OneLineLines(h);
    assert TrimLeft(h) == h && TrimRight(h) == h;
    assert Count([h], IsResolutionHeading) == 1 + Count([h][1..], IsResolutionHeading);
  }

  predicate OneLineCommand(cmd: CloseCommand) {
    OneLine(cmd.recoverySha) && OneLine(cmd.ts)
  }

  lemma ResolutionLinesPlain(cmd: CloseCommand)
    requires OneLineCommand(cmd)
    ensures forall l :: l in ResolutionLines(cmd) ==> OneLine(l) && (l == "" || l[0] == '-')
  {
  }

  /** The PUT body has exactly one Resolution more than the body it was merged onto. */
  lemma ResolutionAddsOne(body: string, cmd: CloseCommand)
    requires OneLineCommand(cmd)
    ensures Resolutions(ResolutionBody(body, cmd)) == Resolutions(body) + 1
  {
    hide ResolutionLines, Resolutions;
    var closed := if HasText(body) && !HasSuffix(body, "\n") then body + "\n" else body;
    var tail := JoinLines(ResolutionLines(cmd));
    ResolutionLinesPlain(cmd);
    PlainLines(ResolutionLines(cmd));
    TheHeading();
    ResolutionsAppend("## Resolution", tail);
    ResolutionsAppend(closed, "## Resolution" + "\n" + tail);
    PlainLine("");
    ResolutionsAppend(body, "");
    assert body + "\n" + "" == body + "\n";
  }

  // ---------------------------------------------------------------- the protocol

  /** How far a closer has got. `Patch` carries the first read, `Put` the second. */
  datatype Stage =
    | Start
    | Patch(found: Task)
    | Reread
    | Put(current: Task)
    | Succeeded
    | Failed

  datatype Closer = Closer(cmd: CloseCommand, stage: Stage)

  datatype World = World(task: Task, closers: map<nat, Closer>)

  /** `Advance` performs a closer's next request; `Break` lets that request fail, with
      or without its write having landed; `Spawn` is a new or redelivered command;
      `Edit` is somebody else changing the body but no Resolution in it. */
  datatype Event =
    | Spawn(who: nat, cmd: CloseCommand)
    | Advance(who: nat)
    | Break(who: nat, landed: bool)
    | Edit(body: string)

  predicate Active(s: Stage) { !s.Succeeded? && !s.Failed? }

  predicate Enabled(w: World, e: Event) {
    match e
    case Spawn(who, cmd) => who !in w.closers && OneLineCommand(cmd)
    case Advance(who) => who in w.closers && Active(w.closers[who].stage)
    case Break(who, _) => who in w.closers && Active(w.closers[who].stage)
    case Edit(body) => Resolutions(body) == Resolutions(w.task.body)
  }

  /** The task after a closer's next request has landed. */
  function Landed(c: Config, t: Task, closer: Closer): Task {
    match closer.stage
    case Patch(found) => t.(fm := t.fm + CompletePatch(c, closer.cmd, found.fm))
    case Put(current) => t.(body := ResolutionBody(current.body, closer.cmd))
    case _ => t
  }

  /** Where a closer stands after a successful request, having read `t`. */
  function Advanced(t: Task, stage: Stage): Stage {
    match stage
    case Start => if Resolutions(t.body) > 0 then Succeeded else Patch(t)
    case Patch(_) => Reread
    case Reread => if Resolutions(t.body) > 0 then Succeeded else Put(t)
    case Put(_) => Succeeded
    case s => s
  }

  function Step(c: Config, w: World, e: Event): World
    requires Enabled(w, e)
  {
    match e
    case Spawn(who, cmd) => w.(closers := w.closers[who := Closer(cmd, Start)])
    case Advance(who) =>
      var closer := w.closers[who];
      World(Landed(c, w.task, closer), w.closers[who := closer.(stage := Advanced(w.task, closer.stage))])
    case Break(who, landed) =>
      var closer := w.closers[who];
      World(if landed then Landed(c, w.task, closer) else w.task, w.closers[who := closer.(stage := Failed)])
    case Edit(body) => w.(task := w.task.(body := body))
  }

  predicate Schedule(c: Config, w: World, events: seq<Event>)
    decreases |events|
  {
    events == [] || (Enabled(w, events[0]) && Schedule(c, Step(c, w, events[0]), events[1..]))
  }

  function Play(c: Config, w: World, events: seq<Event>): World
    requires Schedule(c, w, events)
    decreases |events|
  {
    if events == [] then w else Play(c, Step(c, w, events[0]), events[1..])
  }

  // ---------------------------------------------------------------- the invariant

  predicate Completed(t: Task) {
    Get(t.fm, Status) == Some(Str("completed"))
  }

  predicate CloserOk(t: Task, closer: Closer) {
    && OneLineCommand(closer.cmd)
    && match closer.stage
       case Reread => Completed(t)
       case Put(current) => Completed(t) && Resolutions(current.body) == 0
       case Succeeded => Completed(t) && Resolutions(t.body) == 1
       case _ => true
  }

  predicate Inv(w: World) {
    && Resolutions(w.task.body) <= 1
    && (Resolutions(w.task.body) == 1 ==> Completed(w.task))
    && forall who :: who in w.closers ==> CloserOk(w.task, w.closers[who])
  }

  /** A request keeps "completed" and never takes the Resolution away. */
  lemma LandedMonotone(c: Config, t: Task, closer: Closer)
    requires CloserOk(t, closer) && Resolutions(t.body) <= 1
    ensures var t' := Landed(c, t, closer);
            && (Completed(t) ==> Completed(t'))
            && Resolutions(t.body) <= Resolutions(t'.body) <= 1
            && (Resolutions(t'.body) == 1 ==> Resolutions(t.body) == 1 || Completed(t'))
            && (closer.stage.Patch? ==> Completed(t'))
            && (closer.stage.Put? ==> Resolutions(t'.body) == 1)
  {
    hide Resolutions, ResolutionBody;
    if closer.stage.Put? {
      ResolutionAddsOne(closer.stage.current.body, closer.cmd);
    }
  }

  lemma OthersOk(t: Task, t': Task, closer: Closer)
    requires CloserOk(t, closer) && (Completed(t) ==> Completed(t'))
    requires Resolutions(t.body) <= Resolutions(t'.body) <= 1
    ensures CloserOk(t', closer)
  {
  }

  lemma StepKeepsInv(c: Config, w: World, e: Event)
    requires Inv(w) && Enabled(w, e)
    ensures Inv(Step(c, w, e))
  {
    hide Resolutions, Landed;
    var w' := Step(c, w, e);
    match e {
      case Spawn(_, _) =>
      case Advance(who) =>
        LandedMonotone(c, w.task, w.closers[who]);
        if w.closers[who].stage.Start? || w.closers[who].stage.Reread? {
          ReadsLandNothing(c, w.task, w.closers[who]);
        }
      case Break(who, landed) =>
        LandedMonotone(c, w.task, w.closers[who]);
      case Edit(_) =>
    }
    forall who | who in w'.closers ensures CloserOk(w'.task, w'.closers[who]) {
      if who in w.closers { OthersOk(w.task, w'.task, w.closers[who]); }
    }
  }

  lemma ReadsLandNothing(c: Config, t: Task, closer: Closer)
    requires !closer.stage.Patch? && !closer.stage.Put?
    ensures Landed(c, t, closer) == t
  {
  }

  lemma {:induction false} PlayKeepsInv(c: Config, w: World, events: seq<Event>)
    requires Inv(w) && Schedule(c, w, events)
    ensures Inv(Play(c, w, events))
    decreases |events|
  {
    hide Inv, Step, Enabled;
    if events != [] {
      StepKeepsInv(c, w, events[0]);
      PlayKeepsInv(c, Step(c, w, events[0]), events[1..]);
    }
  }

  /** From an open task without a Resolution, no interleaving of closers, redeliveries
      and half-landed requests ever produces two Resolution sections or a Resolution on
      a task that is not completed; and once any closer has reported success, both the
      status and the Resolution are in place. */
  lemma CloseTaskSafe(c: Config, t: Task, events: seq<Event>)
    requires Resolutions(t.body) == 0 && Schedule(c, World(t, map[]), events)
    ensures var end := Play(c, World(t, map[]), events);
            && Resolutions(end.task.body) <= 1
            && (Resolutions(end.task.body) > 0 ==> Completed(end.task))
            && (forall who :: who in end.closers && end.closers[who].stage.Succeeded? ==>
                  Completed(end.task) && Resolutions(end.task.body) == 1)
  {
    hide Resolutions;
    PlayKeepsInv(c, World(t, map[]), events);
  }

  // ---------------------------------------------------------------- what closing writes

  /** The PATCH completes the task: status, phase, both dates, the SHA if there is one, and
      the vault stamp where it was missing. Nothing else moves. */
  lemma CloseEffect(c: Config, cmd: CloseCommand, fm: Frontmatter, k: Field)
    ensures Get(fm + CompletePatch(c, cmd, fm), k)
         == if k == Status then Some(Str("completed"))
            else if k == Phase then Some(Str("done"))
            else if k == CompletedDate || k == ProcessedAt then Some(Str(cmd.ts))
            else if k == RecoverySha && cmd.recoverySha != "" then Some(Str(cmd.recoverySha))
            else if k == TargetVault && k !in fm then Some(Str(c.vault))
            else Get(fm, k)
  {
    var patch := CompletePatch(c, cmd, fm);
    assert Get(fm + patch, k) == if k in patch then Some(patch[k]) else Get(fm, k);
  }

  /** A closer that finds a Resolution at once reports success and writes nothing; one that
      finds it on re-reading writes no second one. */
  lemma ClosedIsLeftAlone(c: Config, w: World, who: nat)
    requires Enabled(w, Advance(who)) && Resolutions(w.task.body) > 0
    requires w.closers[who].stage.Start? || w.closers[who].stage.Reread?
    ensures Step(c, w, Advance(who)).task == w.task && Step(c, w, Advance(who)).closers[who].stage == Succeeded
  {
    hide Resolutions;
  }

  /** An undisturbed closer takes four requests: it completes the record and adds the
      Resolution to the body. */
  lemma ClosesInFour(c: Config, t: Task, cmd: CloseCommand)
    requires Resolutions(t.body) == 0 && OneLineCommand(cmd)
    ensures var events := [Spawn(0, cmd), Advance(0), Advance(0), Advance(0), Advance(0)];
            && Schedule(c, World(t, map[]), events)
            && Play(c, World(t, map[]), events)
               == World(Task(t.fm + CompletePatch(c, cmd, t.fm), ResolutionBody(t.body, cmd)), map[0 := Closer(cmd, Succeeded)])
  {
    hide *;
    var w := World(t, map[]);
    var patched := Task(t.fm + CompletePatch(c, cmd, t.fm), t.body);
    var w1, w2 := World(t, map[0 := Closer(cmd, Start)]), World(t, map[0 := Closer(cmd, Patch(t))]);
    var w3, w4 := World(patched, map[0 := Closer(cmd, Reread)]), World(patched, map[0 := Closer(cmd, Put(patched))]);
    var w5 := World(patched.(body := ResolutionBody(t.body, cmd)), map[0 := Closer(cmd, Succeeded)]);
    var a := Advance(0);
    SingleCloser(c, t, patched, cmd);
    assert [a] + [] == [a] && [a] + [a] == [a, a] && [a] + [a, a] == [a, a, a] && [a] + [a, a, a] == [a, a, a, a];
    assert [Spawn(0, cmd)] + [a, a, a, a] == [Spawn(0, cmd), a, a, a, a];
    LastStep(c, w5);
    OneStep(c, w4, a, [], w5);
    OneStep(c, w3, a, [a], w4);
    OneStep(c, w2, a, [a, a], w3);
    OneStep(c, w1, a, [a, a, a], w2);
    OneStep(c, w, Spawn(0, cmd), [a, a, a, a], w1);
  }

  lemma LastStep(c: Config, w: World)
    ensures Schedule(c, w, []) && Play(c, w, []) == w
  {
  }

  lemma OneStep(c: Config, w: World, e: Event, rest: seq<Event>, next: World)
    requires Enabled(w, e) && Step(c, w, e) == next && Schedule(c, next, rest)
    ensures Schedule(c, w, [e] + rest) && Play(c, w, [e] + rest) == Play(c, next, rest)
  {
    hide Enabled, Step;
    assert ([e] + rest)[1..] == rest;
  }

  /** The five steps of a lone closer. */
  lemma SingleCloser(c: Config, t: Task, patched: Task, cmd: CloseCommand)
    requires Resolutions(t.body) == 0 && OneLineCommand(cmd) && patched == Task(t.fm + CompletePatch(c, cmd, t.fm), t.body)
    ensures Enabled(World(t, map[]), Spawn(0, cmd))
    ensures Step(c, World(t, map[]), Spawn(0, cmd)) == World(t, map[0 := Closer(cmd, Start)])
    ensures forall task, stage :: Active(stage) ==> Enabled(World(task, map[0 := Closer(cmd, stage)]), Advance(0))
    ensures Active(Start) && Active(Patch(t)) && Active(Reread) && Active(Put(patched))
    ensures Step(c, World(t, map[0 := Closer(cmd, Start)]), Advance(0)) == World(t, map[0 := Closer(cmd, Patch(t))])
    ensures Step(c, World(t, map[0 := Closer(cmd, Patch(t))]), Advance(0)) == World(patched, map[0 := Closer(cmd, Reread)])
    ensures Step(c, World(patched, map[0 := Closer(cmd, Reread)]), Advance(0)) == World(patched, map[0 := Closer(cmd, Put(patched))])
    ensures Step(c, World(patched, map[0 := Closer(cmd, Put(patched))]), Advance(0))
         == World(patched.(body := ResolutionBody(t.body, cmd)), map[0 := Closer(cmd, Succeeded)])
  {
    hide Resolutions, ResolutionBody, CompletePatch, OneLineCommand;
    assert forall x, y: Closer :: map[0 := x][0 := y] == map[0 := y];
  }

  /** The Resolution follows the whole body, and gives the verdict, the SHA and the time. */
  lemma ResolutionSays(body: string, cmd: CloseCommand)
    ensures body <= ResolutionBody(body, cmd)
    ensures var tail := JoinLines(ResolutionLines(cmd));
            |ResolutionBody(body, cmd)| >= |tail| && ResolutionBody(body, cmd)[|ResolutionBody(body, cmd)| - |tail|..] == tail
    ensures "- **Verdict:** green" in ResolutionLines(cmd) && ("- **Closed at:** " + cmd.ts) in ResolutionLines(cmd)
    ensures ("- **Recovery SHA:** `" + cmd.recoverySha + "`") in ResolutionLines(cmd) <==> cmd.recoverySha != ""
  {
    ResolutionLinesSay(cmd);
    hide ResolutionLines, JoinLines, HasText, HasSuffix;
  }

  lemma ResolutionLinesSay(cmd: CloseCommand)
    ensures "- **Verdict:** green" in ResolutionLines(cmd) && ("- **Closed at:** " + cmd.ts) in ResolutionLines(cmd)
    ensures ("- **Recovery SHA:** `" + cmd.recoverySha + "`") in ResolutionLines(cmd) <==> cmd.recoverySha != ""
  {
    var ls := ResolutionLines(cmd);
    assert ls[1] == "- **Verdict:** green" && ls[|ls| - 2] == "- **Closed at:** " + cmd.ts;
    var sha := "- **Recovery SHA:** `" + cmd.recoverySha + "`";
    assert sha[4] == 'R' && ls[1][4] == 'V' && ls[|ls| - 2][4] == 'C';
    if cmd.recoverySha != "" { assert ls[2] == sha; }
  }
}
