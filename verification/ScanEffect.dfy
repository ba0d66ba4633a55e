/** What a scan does to a file: when it reports, resets, repairs or sweeps it, exactly, and
    what the file then says. */
module ScanEffect {
  import opened Records
  import opened Text
  import opened BodyMerge
  import opened Escalation
  import opened ResultWriter
  import opened VaultScan
  import opened ScanQuiescence
  import Writers

  // ---------------------------------------------------------------- conditions

  /** The file can be read, is not as the scanner remembers it, and parses as `fm`. */
  predicate News(s: Settings, io: Io, path: string, e: Option<Entry>, t: string, fm: Frontmatter) {
    path !in io.readFails && (e.Some? ==> e.value.hash != Some(t)) && s.codec.view(t) == Some(fm)
  }

  /** It names a valid identifier that no other path holds. */
  predicate Acceptable(s: Settings, fm: Frontmatter, unique: bool) {
    unique && TaskIdentifier in fm && fm[TaskIdentifier].Str? && s.codec.isUuid(fm[TaskIdentifier].s)
  }

  /** It has an owner, and was booked without one. */
  predicate Returned(e: Option<Entry>, fm: Frontmatter) {
    AssigneeOf(fm) != "" && e.Some? && e.value.id != "" && e.value.assignee == ""
  }

  /** An owned task is published; an unowned one only when it left its booked phase. */
  predicate Publishable(s: Settings, e: Option<Entry>, fm: Frontmatter) {
    && s.config.lib.StatusOf(fm) != ""
    && (AssigneeOf(fm) != "" || (e.Some? && e.value.phase != "" && s.config.lib.PhaseOf(fm) != Some(e.value.phase)))
  }

  /** The predecessor worth recording: a replaced text with something visible on one line. */
  function Replaced(s: Settings, fm: Frontmatter): string {
    if TaskIdentifier in fm && fm[TaskIdentifier].Str? && !s.codec.isUuid(fm[TaskIdentifier].s)
       && HasText(fm[TaskIdentifier].s) && '\r' !in fm[TaskIdentifier].s && '\n' !in fm[TaskIdentifier].s
    then fm[TaskIdentifier].s
    else ""
  }

  /** What a repair would write. */
  function Candidate(s: Settings, io: Io, path: string, t: string, fm: Frontmatter): Option<string> {
    s.codec.inject(if TaskIdentifier in fm then s.codec.strip(t) else t, io.mint(path), Replaced(s, fm))
  }

  predicate ResolvesTo(s: Settings, text: string, id: string) {
    s.codec.view(text).Some? && Get(s.codec.view(text).value, TaskIdentifier) == Some(Str(id))
  }

  // ---------------------------------------------------------------- processing

  /** Nothing is news. */
  lemma NoNews(s: Settings, io: Io, path: string, e: Option<Entry>, t: string, unique: bool)
    requires path in io.readFails || (e.Some? && e.value.hash == Some(t)) || s.codec.view(t) == None
    ensures Process(s, io, path, e, t, unique) == Outcome(e, t, false, Nothing, false)
  {
  }

  /** A task is reported exactly when its file is news, acceptable, not about to be reset,
      and publishable. */
  lemma ReportedExactly(s: Settings, io: Io, path: string, e: Option<Entry>, t: string, fm: Frontmatter, unique: bool)
    requires News(s, io, path, e, t, fm)
    ensures Process(s, io, path, e, t, unique).changed
       <==> Acceptable(s, fm, unique) && !Returned(e, fm) && Publishable(s, e, fm)
  {
    hide Writers.CappedIdle, Inject;
    InjectReportsNothing(s, io, path, e, t);
  }

  lemma InjectReportsNothing(s: Settings, io: Io, path: string, e: Option<Entry>, t: string)
    ensures forall into, assignee, previous :: !Inject(s, io, path, e, t, into, assignee, previous).changed
    ensures forall into, assignee, previous :: Inject(s, io, path, e, t, into, assignee, previous).action != Resetting
  {
  }

  /** What is remembered of an accepted file: its text, identifier and owner, whether its
      triggers are used up, and its phase. Nothing is written. */
  lemma AcceptedExactly(s: Settings, io: Io, path: string, e: Option<Entry>, t: string, fm: Frontmatter)
    requires News(s, io, path, e, t, fm) && Acceptable(s, fm, true) && !Returned(e, fm)
    ensures var o := Process(s, io, path, e, t, true);
            && o.text == t && o.action == Nothing && !o.failed
            && o.entry.Some? && o.entry.value.hash == Some(t) && o.entry.value.id == fm[TaskIdentifier].s
            && o.entry.value.assignee == AssigneeOf(fm)
            && (o.entry.value.capped <==>
                  && (MaxTriggers in fm || (Ref in fm && fm[Ref].Str?))
                  && TriggerCountOf(fm) > 0 && TriggerCountOf(fm) >= MaxTriggersOf(fm))
            && o.entry.value.phase == (match s.config.lib.PhaseOf(fm) case Some(p) => p case None => "")
  {
    hide TriggerCountOf, MaxTriggersOf;
  }

  /** A returned task has its trigger count set to 0 and nothing else changed; the file is
      to be read again. A file that cannot be rewritten is left alone. */
  lemma ResetExactly(s: Settings, io: Io, path: string, e: Option<Entry>, t: string, fm: Frontmatter)
    requires News(s, io, path, e, t, fm) && Acceptable(s, fm, true) && Returned(e, fm) && Lawful(s)
    ensures var o := Process(s, io, path, e, t, true);
            if s.codec.strict(t).None? || path in io.writeFails then o == Outcome(e, t, false, Nothing, true)
            else
              && o.action == Resetting && !o.changed && !o.failed
              && o.entry == Some(Entry(None, fm[TaskIdentifier].s, AssigneeOf(fm), false, ""))
              && s.codec.view(o.text) == Some(fm[TriggerCount := Int(0)]) && s.codec.body(o.text) == s.codec.body(t)
  {
    if s.codec.strict(t).Some? {
      ResetText0(s, t);
    }
    hide Lawful, Writers.CappedIdle;
  }

  lemma ResetText0(s: Settings, t: string)
    requires Lawful(s) && s.codec.strict(t).Some?
    ensures s.codec.view(t) == s.codec.strict(t) && ResetText(s, t).Some?
    ensures var next := ResetText(s, t).value;
            s.codec.view(next) == Some(s.codec.strict(t).value[TriggerCount := Int(0)]) && s.codec.body(next) == s.codec.body(t)
  {
    var fm := s.codec.strict(t).value;
    assert Derived(fm, fm[TriggerCount := Int(0)]);
    assert s.codec.view(s.codec.render(fm[TriggerCount := Int(0)], s.codec.body(t))) == Some(fm[TriggerCount := Int(0)]);
  }

  /** No other file is reset. */
  lemma ResetOnlyReturned(s: Settings, io: Io, path: string, e: Option<Entry>, t: string, fm: Frontmatter, unique: bool)
    requires News(s, io, path, e, t, fm) && Process(s, io, path, e, t, unique).action == Resetting
    ensures Acceptable(s, fm, unique) && Returned(e, fm)
  {
    hide Writers.CappedIdle, Inject;
    InjectReportsNothing(s, io, path, e, t);
  }

  /** A file that is not acceptable is repaired when injection is on and works: it then
      carries the minted identifier, is booked under it and is to be read again. An
      injection that does not take is halted for as long as the text stays. */
  lemma RepairExactly(s: Settings, io: Io, path: string, e: Option<Entry>, t: string, fm: Frontmatter, unique: bool)
    requires News(s, io, path, e, t, fm) && !Acceptable(s, fm, unique)
    ensures var o, next := Process(s, io, path, e, t, unique), Candidate(s, io, path, t, fm);
            if !s.autoInject || next.None? then o == Outcome(e, t, false, Nothing, false)
            else if !ResolvesTo(s, next.value, io.mint(path)) then
              o == Outcome(Some(Entry(Some(t), "", AssigneeOf(fm), false, "")), t, false, Nothing, false)
            else if path in io.writeFails then o == Outcome(e, t, false, Nothing, true)
            else o == Outcome(Some(Entry(None, io.mint(path), AssigneeOf(fm), false, "")), next.value, false, Repairing, false)
  {
    hide Accept;
  }

  /** In a cycle: a listed file is reported exactly under these conditions, its booking
      being that of the cycle's start. */
  lemma ReportedInCycle(s: Settings, io: Io, book: Book, listing: seq<string>, n: nat, fm: Frontmatter)
    requires NoRepeats(listing) && n < |listing| && listing[n] in book.files
    requires News(s, io, listing[n], EntryOf(book.hashes, listing[n]), book.files[listing[n]], fm)
    ensures var p, pruned := listing[n], Pruned(book, listing);
            var unique := UniqueFor(s, Scanned(s, io, pruned, listing[..n]).hashes, p, book.files[p]);
            p in CycleReport(s, io, book, listing).changed
            <==> Acceptable(s, fm, unique) && !Returned(EntryOf(book.hashes, p), fm) && Publishable(s, EntryOf(book.hashes, p), fm)
  {
    var p, pruned := listing[n], Pruned(book, listing);
    PrunedKeeps(book, listing, p);
    ScanPath(s, io, pruned, listing, n);
    var unique := UniqueFor(s, Scanned(s, io, pruned, listing[..n]).hashes, p, book.files[p]);
    ReportedExactly(s, io, p, EntryOf(book.hashes, p), book.files[p], fm, unique);
    hide Process, Scanned, Acceptable, Returned, Publishable, News, UniqueFor, WrittenPaths;
    assert ReportedChanged(s, io, pruned, listing, n) == Process(s, io, p, EntryOf(book.hashes, p), book.files[p], unique).changed;
    hide ReportedChanged, Pruned;
    OnlyOnce(s, io, pruned, listing, n);
  }

  lemma OnlyOnce(s: Settings, io: Io, book: Book, listing: seq<string>, n: nat)
    requires NoRepeats(listing) && n < |listing|
    ensures listing[n] in ChangedPaths(s, io, book, listing, |listing|) <==> ReportedChanged(s, io, book, listing, n)
  {
    hide ReportedChanged;
    if listing[n] in ChangedPaths(s, io, book, listing, |listing|) {
      var m :| 0 <= m < |listing| && ReportedChanged(s, io, book, listing, m) && listing[m] == listing[n];
      assert m == n;
    }
  }

  // ---------------------------------------------------------------- the sweep

  /** The record is owned, in progress, without a job, and its triggers are used up. */
  predicate Idle(s: Settings, fm: Frontmatter) {
    && (MaxTriggers in fm || (Ref in fm && fm[Ref].Str?))
    && TriggerCountOf(fm) > 0 && TriggerCountOf(fm) >= MaxTriggersOf(fm)
    && s.config.lib.StatusOf(fm) == "in_progress" && StringOf(fm, CurrentJob) == "" && AssigneeOf(fm) != ""
  }

  /** A file is swept exactly when it is booked as owned and used up and still is idle; it
      is then on hold, without an owner, the owner on record, nothing else changed, and
      shows an escalation section. */
  lemma SweptExactly(s: Settings, io: Io, path: string, e: Option<Entry>, t: string)
    requires Lawful(s) && path !in io.readFails && path !in io.writeFails
    ensures var o := SweepFile(s, io, path, e, t);
            var due := e.Some? && e.value.capped && e.value.assignee != "" && s.codec.strict(t).Some? && Idle(s, s.codec.strict(t).value);
            && (o.action == Sweeping <==> due)
            && (!due ==> o.entry == e && o.text == t && o.action == Nothing)
            && (due ==> o.entry == Some(Entry(None, e.value.id, "", false, "")) && SweptText(s, io.ts, t, o.text))
  {
    if s.codec.strict(t).Some? && Idle(s, s.codec.strict(t).value) {
      SweepPrints(s, io.ts, t);
    }
    hide Lawful, SweptText, Writers.SweepWrite, TriggerCountOf, MaxTriggersOf;
  }

  /** The text of a swept file, against the text it had. */
  predicate SweptText(s: Settings, ts: string, t: string, next: string) {
    var was, now, body := s.codec.strict(t), s.codec.view(next), s.codec.body(t);
    && was.Some? && now.Some?
    && now.value == was.value[PreviousAssignee := Str(AssigneeOf(was.value))][Assignee := Str("")][Status := Str("hold")]
    && s.codec.body(next)
       == if ContainsSection(body, TRIGGER_HEADING) then body
          else body + TriggerSection(ts, TriggerCountOf(was.value), MaxTriggersOf(was.value), AssigneeOf(was.value))
  }

  lemma SweepPrints(s: Settings, ts: string, t: string)
    requires Lawful(s) && s.codec.strict(t).Some? && Idle(s, s.codec.strict(t).value)
    ensures var w := Writers.SweepWrite(s.config, ts, Task(s.codec.strict(t).value, s.codec.body(t)));
            SweptText(s, ts, t, s.codec.render(w.fm, w.body))
  {
    hide ContainsSection, TriggerSection;
    var fm := s.codec.strict(t).value;
    var w := Writers.SweepWrite(s.config, ts, Task(fm, s.codec.body(t)));
    SweepKeepsIdentifier(s, ts, Task(fm, s.codec.body(t)));
    assert s.codec.view(s.codec.render(w.fm, w.body)) == Some(w.fm);
  }

  /** The section is there once, if the body did not bear its heading before. */
  lemma SweptOnceNamed(s: Settings, ts: string, t: string, next: string)
    requires SweptText(s, ts, t, next) && OneLine(ts) && OneLine(AssigneeOf(s.codec.strict(t).value))
    requires Terminated(s.codec.body(t)) && !Names(SplitBody(s.codec.body(t)).sections, TRIGGER_HEADING)
    ensures ExactlyOne(s.codec.body(next), TRIGGER_HEADING)
  {
    hide ContainsSection, TriggerSection, ExactlyOne, Terminated, Names, OneLine, SplitBody, TriggerCountOf, MaxTriggersOf;
    var fm := s.codec.strict(t).value;
    HeadingNames();
    UnnamedIsUnseen(s.codec.body(t), TRIGGER_HEADING);
    TriggerSectionAddsOne(s.codec.body(t), ts, TriggerCountOf(fm), MaxTriggersOf(fm), AssigneeOf(fm));
  }

  /** The scanner's own writes are the writers' counter reset and sweep. */
  lemma ScannerWrites(s: Settings, t: string, ts: string)
    requires Lawful(s) && s.codec.strict(t).Some?
    ensures var task := Task(s.codec.strict(t).value, s.codec.body(t));
            && ResetText(s, t).Some?
            && s.codec.view(ResetText(s, t).value) == Some(Writers.Apply(s.config, task, Writers.ResetCounter).fm)
            && s.codec.body(ResetText(s, t).value) == Writers.Apply(s.config, task, Writers.ResetCounter).body
            && Writers.Apply(s.config, task, Writers.Sweep(ts)) == Writers.SweepWrite(s.config, ts, task)
  {
    ResetText0(s, t);
    hide Lawful, ResetText, Writers.SweepWrite;
  }

  /** A path that is no longer listed is forgotten, and its identifier, if it had one, is
      reported deleted; nothing else is. */
  lemma DeletedExactly(book: Book, listing: seq<string>, id: string, p: string)
    ensures id in Deleted(book, listing) <==> id != "" && exists q :: q in book.hashes && book.hashes[q].id == id && q !in listing
    ensures EntryOf(Pruned(book, listing).hashes, p) == if p in listing then EntryOf(book.hashes, p) else None
    ensures Pruned(book, listing).files == book.files
  {
  }
}
