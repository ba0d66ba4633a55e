/** Left alone, the scanner falls silent. Whatever its (reachable) bookkeeping and its
    settings, at most three cycles per file (and one for deletions) write or report
    anything; and when every file is settled by one processing, the third cycle and all
    later ones are silent. */
module ScanQuiescence {
  import opened Records
  import opened VaultScan
  import opened ScanIdentity
  import Writers

  // ---------------------------------------------------------------- assumptions

  /** What is assumed of YAML and of the line surgery on file text. */
  ghost predicate Lawful(s: Settings) {
    var k := s.codec;
    && !k.isUuid("")
    && (forall t, fm, b :: k.strict(t).Some? && Derived(k.strict(t).value, fm) ==>
          k.view(k.render(fm, b)) == Some(fm) && k.strict(k.render(fm, b)) == Some(fm) && k.body(k.render(fm, b)) == b)
    && (forall t :: k.strict(t).Some? ==> k.view(t) == k.strict(t))
    && (forall t, id, previous :: InjectLaw(s, t, t, id, previous) && InjectLaw(s, t, k.strip(t), id, previous))
  }

  /** The keys of `fm` are those of a parsed record or named ones, and its values those of
      that record or plain numbers and strings the controller put there: printing it and
      parsing the print gives it back. */
  predicate Derived(parsed: Frontmatter, fm: Frontmatter) {
    forall k :: k in fm ==>
      && (k in parsed || !k.Custom?)
      && (fm[k].Int? || fm[k].Str? || (k in parsed && fm[k] == parsed[k]))
  }

  /** An injection that converges leaves the owner as it was in `t`. */
  predicate InjectLaw(s: Settings, t: string, into: string, id: string, previous: string) {
    var next := s.codec.inject(into, id, previous);
    next.Some? && s.codec.view(t).Some? && Converges(s, next.value, id) ==>
      AssigneeOf(s.codec.view(next.value).value) == AssigneeOf(s.codec.view(t).value)
  }

  /** A fresh identifier can be injected: injection is on, and the file opens with a
      delimiter line to inject behind. */
  ghost predicate Injectable(s: Settings, t: string) {
    && s.autoInject
    && forall id, previous ::
         s.codec.inject(t, id, previous).Some? && s.codec.inject(s.codec.strip(t), id, previous).Some?
  }

  /** The file has an owner again while its booking has none: its counter is to be reset. */
  predicate ResetDue(s: Settings, e: Option<Entry>, t: string) {
    && s.codec.view(t).Some? && AssigneeOf(s.codec.view(t).value) != ""
    && e.Some? && e.value.id != "" && e.value.assignee == ""
  }

  /** One processing settles the file: it cannot be parsed, or it can be injected into and
      a reset that is due does not meet duplicate keys. */
  ghost predicate Settles(s: Settings, e: Option<Entry>, t: string) {
    s.codec.view(t).Some? ==> Injectable(s, t) && (ResetDue(s, e, t) ==> s.codec.strict(t).Some?)
  }

  /** A cycle in which nothing fails and minted identifiers are valid. */
  predicate Calm(s: Settings, io: Io, listing: seq<string>) {
    io.readFails == {} && io.writeFails == {} && forall p :: p in listing ==> s.codec.isUuid(io.mint(p))
  }

  // ---------------------------------------------------------------- reachable bookkeeping

  /** An entry with a real hash describes the text it hashed, or records a halted
      repair; a sentinel remembers neither cap nor phase. */
  predicate EntryOk(s: Settings, e: Entry) {
    match e.hash
    case None => !e.capped && e.phase == ""
    case Some(t) =>
      || (e.id == "" && !e.capped)
      || (&& NamesId(s, t, e.id) && s.codec.isUuid(e.id)
          && e.assignee == AssigneeOf(s.codec.view(t).value) && e.capped == Writers.CappedIdle(s.codec.view(t).value))
  }

  predicate BookOk(s: Settings, hashes: map<string, Entry>) {
    forall p :: p in hashes ==> EntryOk(s, hashes[p])
  }

  lemma ProcessKeepsEntryOk(s: Settings, io: Io, path: string, entry: Option<Entry>, text: string, unique: bool)
    requires entry.Some? ==> EntryOk(s, entry.value)
    ensures var o := Process(s, io, path, entry, text, unique); o.entry.Some? ==> EntryOk(s, o.entry.value)
  {
    hide Writers.CappedIdle;
  }

  lemma {:induction false} ScanKeepsBookOk(s: Settings, io: Io, book: Book, listing: seq<string>)
    requires BookOk(s, book.hashes)
    ensures BookOk(s, Scanned(s, io, book, listing).hashes)
  {
    hide Process, EntryOk, UniqueFor;
    if listing != [] {
      var init, last := listing[..|listing| - 1], listing[|listing| - 1];
      ScanKeepsBookOk(s, io, book, init);
      var b := Scanned(s, io, book, init);
      if last in b.files {
        ProcessKeepsEntryOk(s, io, last, EntryOf(b.hashes, last), b.files[last],
                            UniqueFor(s, b.hashes, last, b.files[last]));
      }
    }
  }

  lemma CycleKeepsBookOk(s: Settings, io: Io, book: Book, listing: seq<string>)
    requires BookOk(s, book.hashes)
    ensures BookOk(s, Cycle(s, io, book, listing).hashes)
  {
    hide Scanned, Writers.Sweepable, Writers.SweepWrite, NamesId;
    ScanKeepsBookOk(s, io, Pruned(book, listing), listing);
  }

  // ---------------------------------------------------------------- how lively a file is

  /** The sweep would rewrite the file. */
  predicate SweepDue(s: Settings, e: Option<Entry>, t: string) {
    Candidate(e) && s.codec.strict(t).Some? && Writers.Sweepable(s.config, s.codec.strict(t).value)
  }

  /** Remembered by the hash of its text. */
  predicate Hashed(s: Settings, e: Option<Entry>, t: string) {
    e.Some? && e.value.hash == Some(t) && EntryOk(s, e.value)
  }

  /** Written by the scanner itself: booked under its own identifier and owner, to be
      read once more. */
  predicate Written(s: Settings, e: Option<Entry>, t: string) {
    && e.Some? && e.value.hash == None && EntryOk(s, e.value)
    && s.codec.view(t).Some? && NamesId(s, t, e.value.id) && s.codec.isUuid(e.value.id)
    && e.value.assignee == AssigneeOf(s.codec.view(t).value)
  }

  /** Level 0: nothing is left to do. Level 1: read once more, silently. Level 2: read
      once more, then perhaps published and swept. */
  predicate AtMost(level: int, s: Settings, e: Option<Entry>, t: string) {
    || s.codec.view(t).None?
    || (Hashed(s, e, t) && !SweepDue(s, e, t))
    || (level >= 1 && Written(s, e, t) && e.value.assignee == "")
    || (level >= 2 && Written(s, e, t))
  }

  /** What one processing leaves, before the sweep. */
  predicate Processed(s: Settings, e: Option<Entry>, t: string) {
    s.codec.view(t).None? || Hashed(s, e, t) || Written(s, e, t)
  }

  /** Nothing happened to the file. */
  predicate Unmoved(e: Option<Entry>, t: string, o: Outcome) {
    o.entry == e && o.text == t && !o.changed && o.action == Nothing
  }

  lemma InjectSettles(s: Settings, io: Io, path: string, e: Option<Entry>, t: string, into: string, assignee: string, previous: string)
    requires Lawful(s) && s.codec.isUuid(io.mint(path)) && path !in io.writeFails && (into == t || into == s.codec.strip(t))
    requires s.codec.view(t).Some? && assignee == AssigneeOf(s.codec.view(t).value)
    ensures var o := Inject(s, io, path, e, t, into, assignee, previous);
            if s.codec.inject(into, io.mint(path), previous).Some? then Processed(s, o.entry, o.text) else Unmoved(e, t, o)
  {
    var next := s.codec.inject(into, io.mint(path), previous);
    assert InjectLaw(s, t, into, io.mint(path), previous);
    hide Lawful;
  }

  lemma AcceptSettles(s: Settings, io: Io, path: string, e: Option<Entry>, t: string)
    requires Lawful(s) && path !in io.writeFails
    requires s.codec.view(t).Some? && Identified(s, s.codec.view(t).value)
    ensures var o := Accept(s, io, path, e, t, s.codec.view(t).value);
            if ResetDue(s, e, t) && s.codec.strict(t).None? then Unmoved(e, t, o) else Processed(s, o.entry, o.text)
  {
    if ResetText(s, t).Some? {
      ResetKeepsOwner(s, t);
    }
    hide Lawful, Writers.CappedIdle, AssigneeOf;
  }

  /** A processing either leaves everything as it is, silently, or settles the file; a
      file that settles is settled. */
  lemma ProcessAny(s: Settings, io: Io, path: string, listing: seq<string>, e: Option<Entry>, t: string, unique: bool)
    requires Lawful(s) && Calm(s, io, listing) && path in listing
    requires e.Some? ==> EntryOk(s, e.value)
    ensures var o := Process(s, io, path, e, t, unique);
            Processed(s, o.entry, o.text) || (Unmoved(e, t, o) && !Settles(s, e, t))
  {
    hide Lawful, Accept, Inject, Identified;
    if s.codec.view(t).Some? {
      var fm := s.codec.view(t).value;
      if Identified(s, fm) && unique {
        AcceptSettles(s, io, path, e, t);
      } else {
        var previous := if Identified(s, fm) then "" else Predecessor(fm);
        InjectSettles(s, io, path, e, t, t, AssigneeOf(fm), "");
        InjectSettles(s, io, path, e, t, s.codec.strip(t), AssigneeOf(fm), previous);
      }
    }
  }

  lemma ResetKeepsOwner(s: Settings, t: string)
    requires Lawful(s) && ResetText(s, t).Some?
    ensures var fm, reset := s.codec.view(t), s.codec.view(ResetText(s, t).value);
            fm.Some? && reset.Some? && IdentifierOf(reset.value) == IdentifierOf(fm.value)
            && AssigneeOf(reset.value) == AssigneeOf(fm.value)
  {
    var fm := s.codec.strict(t).value;
    assert Derived(fm, fm[TriggerCount := Int(0)]);
    assert s.codec.view(s.codec.render(fm[TriggerCount := Int(0)], s.codec.body(t))) == Some(fm[TriggerCount := Int(0)]);
  }

  /** A file at level 2 is read at most once more; only a level-2 file is reported. */
  lemma ProcessSettled(s: Settings, io: Io, path: string, level: int, e: Option<Entry>, t: string, unique: bool)
    requires AtMost(level, s, e, t) && (Written(s, e, t) ==> unique)
    ensures var o := Process(s, io, path, e, t, unique);
            && o.action == Nothing && o.text == t
            && (o.entry == e || Hashed(s, o.entry, t))
            && (path !in io.readFails ==> s.codec.view(t).None? || Hashed(s, o.entry, t))
            && (level <= 1 ==> !o.changed && (SweepDue(s, o.entry, t) ==> s.codec.view(t).None?))
  {
    hide Writers.Sweepable, Writers.CappedIdle;
  }

  lemma SweepProcessed(s: Settings, io: Io, path: string, e: Option<Entry>, t: string)
    requires Lawful(s) && Processed(s, e, t)
    ensures var o := SweepFile(s, io, path, e, t);
            && (path !in io.readFails && path !in io.writeFails ==> AtMost(2, s, o.entry, o.text))
            && (!SweepDue(s, e, t) ==> o.entry == e && o.text == t && o.action == Nothing)
            && (o.action == Sweeping ==> AtMost(1, s, o.entry, o.text))
            && ((s.codec.view(t).None? || Hashed(s, e, t)) && path !in io.readFails && path !in io.writeFails ==>
                  AtMost(1, s, o.entry, o.text))
  {
    if SweepDue(s, e, t) {
      SweptIsWritten(s, io, path, e, t);
    }
    hide Writers.Sweepable, Writers.SweepWrite, Lawful;
  }

  lemma SweptIsWritten(s: Settings, io: Io, path: string, e: Option<Entry>, t: string)
    requires Lawful(s) && Processed(s, e, t) && SweepDue(s, e, t)
    ensures var o := SweepFile(s, io, path, e, t);
            o.action == Sweeping ==> Written(s, o.entry, o.text) && o.entry.value.assignee == ""
  {
    hide Writers.CappedIdle;
    var fm := s.codec.strict(t).value;
    var next := Writers.SweepWrite(s.config, io.ts, Task(fm, s.codec.body(t)));
    SweepKeepsIdentifier(s, io.ts, Task(fm, s.codec.body(t)));
    assert s.codec.view(s.codec.render(next.fm, next.body)) == Some(next.fm);
  }

  lemma SweepKeepsIdentifier(s: Settings, ts: string, t: Task)
    requires Writers.Sweepable(s.config, t.fm)
    ensures var next := Writers.SweepWrite(s.config, ts, t).fm;
            IdentifierOf(next) == IdentifierOf(t.fm) && AssigneeOf(next) == "" && Derived(t.fm, next)
  {
    hide Writers.Sweepable;
  }

  // ---------------------------------------------------------------- one path through one cycle

  lemma {:induction false} ScannedConcat(s: Settings, io: Io, book: Book, a: seq<string>, b: seq<string>)
    ensures Scanned(s, io, book, a + b) == Scanned(s, io, Scanned(s, io, book, a), b)
  {
    hide ProcessPath;
    if b == [] {
      assert a + b == a;
    } else {
      assert (a + b)[..|a + b| - 1] == a + b[..|b| - 1];
      ScannedConcat(s, io, book, a, b[..|b| - 1]);
    }
  }

  lemma EntriesRemain(s: Settings, io: Io, path: string, entry: Option<Entry>, text: string, unique: bool)
    ensures entry.Some? ==> Process(s, io, path, entry, text, unique).entry.Some?
  {
  }

  /** A listed path meets the cycle as the cycle found it, and leaves the scan as its
      own processing left it. */
  lemma ScanPath(s: Settings, io: Io, book: Book, listing: seq<string>, n: nat)
    requires NoRepeats(listing) && n < |listing| && listing[n] in book.files
    ensures var p, met := listing[n], Scanned(s, io, book, listing[..n]);
            && p in met.files && met.files[p] == book.files[p] && EntryOf(met.hashes, p) == EntryOf(book.hashes, p)
    ensures var p, o, b := listing[n], ScanOutcome(s, io, book, listing, n), Scanned(s, io, book, listing);
            && p in b.files && b.files[p] == o.text && EntryOf(b.hashes, p) == o.entry
  {
    hide Process, UniqueFor;
    var p, before, after := listing[n], listing[..n], listing[n + 1..];
    var met := Scanned(s, io, book, before);
    ScanFrame(s, io, book, before, p);
    var here := before + [p];
    assert here[..|here| - 1] == before && here + after == listing;
    var done := Scanned(s, io, book, here);
    assert done == ProcessPath(s, io, met, p);
    EntriesRemain(s, io, p, EntryOf(met.hashes, p), met.files[p], UniqueFor(s, met.hashes, p, met.files[p]));
    assert EntryOf(done.hashes, p) == OutcomeAt(s, io, met, p).entry;
    ScannedConcat(s, io, book, here, after);
    ScanFrame(s, io, done, after, p);
  }

  lemma SweptPath(s: Settings, io: Io, book: Book, p: string)
    requires p in book.files
    ensures var o, b := SweepAt(s, io, book, p), Swept(s, io, book);
            p in b.files && b.files[p] == o.text && EntryOf(b.hashes, p) == o.entry
  {
    hide Writers.Sweepable, Writers.SweepWrite;
  }

  // ---------------------------------------------------------------- all files through one cycle

  ghost predicate Lists(listing: seq<string>, files: map<string, string>) {
    NoRepeats(listing) && forall p :: p in listing <==> p in files
  }

  /** Between cycles: bookkeeping as the scanner keeps it, and a calm cycle ahead. */
  ghost predicate Ready(s: Settings, io: Io, book: Book, listing: seq<string>) {
    && Lawful(s) && Lists(listing, book.files)
    && Unique(book.hashes) && BookOk(s, book.hashes)
    && Calm(s, io, listing) && FreshMints(s, io, book, listing)
  }

  predicate AllAtMost(level: int, s: Settings, book: Book) {
    forall p :: p in book.files ==> AtMost(level, s, EntryOf(book.hashes, p), book.files[p])
  }

  lemma PrunedKeeps(book: Book, listing: seq<string>, p: string)
    requires p in listing
    ensures EntryOf(Pruned(book, listing).hashes, p) == EntryOf(book.hashes, p)
  {
  }

  lemma PrunedReady(s: Settings, io: Io, book: Book, listing: seq<string>)
    requires Ready(s, io, book, listing)
    ensures Ready(s, io, Pruned(book, listing), listing)
  {
    hide Lawful;
    var pruned := Pruned(book, listing);
    forall id | Booked(pruned.hashes, id) ensures Booked(book.hashes, id) {
      var p :| p in pruned.hashes && pruned.hashes[p].id == id;
      assert book.hashes[p].id == id;
    }
  }

  /** The identifier of a file the scanner wrote is booked to it alone. */
  lemma WrittenIsUnique(s: Settings, hashes: map<string, Entry>, p: string, t: string)
    requires Unique(hashes) && Written(s, EntryOf(hashes, p), t) && !s.codec.isUuid("")
    ensures UniqueFor(s, hashes, p, t)
  {
  }

  /** The n-th file after the cycle. */
  lemma FileAfter(s: Settings, io: Io, book: Book, listing: seq<string>, n: nat) returns (unique: bool)
    requires Ready(s, io, book, listing) && n < |listing|
    ensures var p := listing[n];
            var o := Process(s, io, p, EntryOf(book.hashes, p), book.files[p], unique);
            var w := SweepFile(s, io, p, o.entry, o.text);
            var after, pruned := Cycle(s, io, book, listing), Pruned(book, listing);
            && (Written(s, EntryOf(book.hashes, p), book.files[p]) ==> unique)
            && p in Scanned(s, io, pruned, listing[..n]).files && p in Scanned(s, io, pruned, listing).files
            && ScanOutcome(s, io, pruned, listing, n) == o && SweepOutcome(s, io, pruned, listing, p) == w
            && p in after.files && after.files[p] == w.text && EntryOf(after.hashes, p) == w.entry
  {
    var p, pruned := listing[n], Pruned(book, listing);
    PrunedReady(s, io, book, listing);
    PrunedKeeps(book, listing, p);
    assert p in listing && listing[..n] <= listing;
    ScanPath(s, io, pruned, listing, n);
    ScanKeepsUnique(s, io, pruned, listing, listing[..n]);
    hide Process, SweepFile, Scanned, Lawful, Swept, Ready;
    var met := Scanned(s, io, pruned, listing[..n]);
    unique := UniqueFor(s, met.hashes, p, met.files[p]);
    if Written(s, EntryOf(book.hashes, p), book.files[p]) {
      assert !s.codec.isUuid("") by { ReadyLaw(s, io, book, listing); }
      WrittenIsUnique(s, met.hashes, p, met.files[p]);
    }
    SweptPath(s, io, Scanned(s, io, pruned, listing), p);
  }

  lemma ReadyLaw(s: Settings, io: Io, book: Book, listing: seq<string>)
    requires Ready(s, io, book, listing)
    ensures Lawful(s) && !s.codec.isUuid("") && io.readFails == {} && io.writeFails == {}
  {
  }

  lemma FirstCycle(s: Settings, io: Io, book: Book, listing: seq<string>)
    requires Ready(s, io, book, listing) && AllSettle(s, book)
    ensures AllAtMost(2, s, Cycle(s, io, book, listing))
  {
    SameFiles(s, io, book, listing);
    hide Process, SweepFile, Cycle, AtMost, Processed, Lawful, Settles;
    forall p | p in book.files
      ensures AtMost(2, s, EntryOf(Cycle(s, io, book, listing).hashes, p), Cycle(s, io, book, listing).files[p])
    {
      var n :| 0 <= n < |listing| && listing[n] == p;
      FirstCycleOf(s, io, book, listing, n);
    }
  }

  /** Every file is settled already, or by one processing. */
  ghost predicate AllSettle(s: Settings, book: Book) {
    forall p :: p in book.files ==> SettlesSoon(s, EntryOf(book.hashes, p), book.files[p])
  }

  ghost predicate SettlesSoon(s: Settings, e: Option<Entry>, t: string) {
    AtMost(2, s, e, t) || Settles(s, e, t)
  }

  lemma FirstCycleOf(s: Settings, io: Io, book: Book, listing: seq<string>, n: nat)
    requires Ready(s, io, book, listing) && n < |listing|
    requires SettlesSoon(s, EntryOf(book.hashes, listing[n]), book.files[listing[n]])
    ensures var p, pruned, after := listing[n], Pruned(book, listing), Cycle(s, io, book, listing);
            && p in Scanned(s, io, pruned, listing).files && p in after.files
            && AtMost(2, s, EntryOf(after.hashes, p), after.files[p])
            && (SweepOutcome(s, io, pruned, listing, p).action == Sweeping ==>
                  AtMost(1, s, EntryOf(after.hashes, p), after.files[p]))
  {
    hide Process, SweepFile, Cycle, Scanned, AtMost, Processed, Lawful, Settles;
    var p := listing[n];
    assert p in listing && p in book.files;
    if AtMost(2, s, EntryOf(book.hashes, p), book.files[p]) {
      LaterCycle(s, io, book, listing, 2, n);
      LevelUp(s, EntryOf(Cycle(s, io, book, listing).hashes, p), Cycle(s, io, book, listing).files[p]);
    } else {
      var unique := FileAfter(s, io, book, listing, n);
      ProcessAny(s, io, p, listing, EntryOf(book.hashes, p), book.files[p], unique);
      var o := Process(s, io, p, EntryOf(book.hashes, p), book.files[p], unique);
      SweepProcessed(s, io, p, o.entry, o.text);
    }
  }

  lemma LevelUp(s: Settings, e: Option<Entry>, t: string)
    ensures AtMost(1, s, e, t) ==> AtMost(2, s, e, t)
  {
    hide Hashed, SweepDue, Written;
  }

  lemma SameFiles(s: Settings, io: Io, book: Book, listing: seq<string>)
    ensures Cycle(s, io, book, listing).files.Keys == book.files.Keys
    ensures Cycle(s, io, book, listing).hashes.Keys <= (set p | p in listing)
  {
    ScannedFiles(s, io, Pruned(book, listing), listing);
    ScannedPaths(s, io, Pruned(book, listing), listing);
    SweptDomain(s, io, Scanned(s, io, Pruned(book, listing), listing));
  }

  lemma {:induction false} ScannedPaths(s: Settings, io: Io, book: Book, listing: seq<string>)
    ensures Scanned(s, io, book, listing).hashes.Keys <= book.hashes.Keys + (set p | p in listing)
  {
    hide OutcomeAt;
    if listing != [] {
      ScannedPaths(s, io, book, listing[..|listing| - 1]);
    }
  }

  /** A cycle lowers a file from level 2, and repairs and resets nothing in it; in a file
      at level 1 it does nothing at all. */
  lemma LaterCycle(s: Settings, io: Io, book: Book, listing: seq<string>, level: int, n: nat)
    requires Ready(s, io, book, listing) && 0 <= level <= 2 && n < |listing|
    requires AtMost(level, s, EntryOf(book.hashes, listing[n]), book.files[listing[n]])
    ensures var p, pruned, after := listing[n], Pruned(book, listing), Cycle(s, io, book, listing);
            && p in Scanned(s, io, pruned, listing[..n]).files && p in Scanned(s, io, pruned, listing).files
            && p in after.files && AtMost(1, s, EntryOf(after.hashes, p), after.files[p])
            && var o, w := ScanOutcome(s, io, pruned, listing, n), SweepOutcome(s, io, pruned, listing, p);
               o.action == Nothing && (level <= 1 ==> !o.changed && w.action == Nothing)
  {
    hide Process, SweepFile, Cycle, Scanned, Lawful, Pruned;
    var p := listing[n];
    var unique := FileAfter(s, io, book, listing, n);
    assert p in listing && p in book.files;
    var e, t := EntryOf(book.hashes, p), book.files[p];
    ProcessSettled(s, io, p, level, e, t, unique);
    var o := Process(s, io, p, e, t, unique);
    assert Processed(s, o.entry, o.text);
    hide AtMost, Hashed, Written, SweepDue, Processed;
    SweepProcessed(s, io, p, o.entry, o.text);
    NoSweepOfUnparsable(s, o.entry, o.text);
  }

  lemma NoSweepOfUnparsable(s: Settings, e: Option<Entry>, t: string)
    requires Lawful(s)
    ensures s.codec.view(t).None? ==> !SweepDue(s, e, t)
  {
  }

  // ---------------------------------------------------------------- whole runs

  const SILENCE := Report({}, {}, {})

  function Cycles(s: Settings, book: Book, listing: seq<string>, ios: seq<Io>): Book {
    if ios == [] then book
    else Cycle(s, ios[|ios| - 1], Cycles(s, book, listing, ios[..|ios| - 1]), listing)
  }

  /** No outside edits, no failures, fresh identifiers, all along. */
  ghost predicate LeftAlone(s: Settings, book: Book, listing: seq<string>, ios: seq<Io>) {
    forall n :: 0 <= n < |ios| ==>
      Calm(s, ios[n], listing) && FreshMints(s, ios[n], Cycles(s, book, listing, ios[..n]), listing)
  }

  /** Reachable bookkeeping, and a listing of the files. */
  ghost predicate Reachable(s: Settings, book: Book, listing: seq<string>) {
    Lawful(s) && Lists(listing, book.files) && Unique(book.hashes) && BookOk(s, book.hashes)
  }

  ghost predicate Sound(s: Settings, book: Book, listing: seq<string>) {
    Reachable(s, book, listing) && AllSettle(s, book)
  }

  lemma {:induction false} RunReady(s: Settings, book: Book, listing: seq<string>, ios: seq<Io>)
    requires Reachable(s, book, listing) && LeftAlone(s, book, listing, ios)
    ensures var b := Cycles(s, book, listing, ios);
            Lists(listing, b.files) && Unique(b.hashes) && BookOk(s, b.hashes)
    ensures ios != [] ==> Cycles(s, book, listing, ios).hashes.Keys <= (set p | p in listing)
  {
    hide Cycle, Lawful, Unique, BookOk, FreshMints;
    if ios != [] {
      var init, last := ios[..|ios| - 1], ios[|ios| - 1];
      LeftAloneBefore(s, book, listing, ios);
      RunReady(s, book, listing, init);
      var b := Cycles(s, book, listing, init);
      CycleKeepsUnique(s, last, b, listing);
      CycleKeepsBookOk(s, last, b, listing);
      SameFiles(s, last, b, listing);
    }
  }

  lemma LeftAloneBefore(s: Settings, book: Book, listing: seq<string>, ios: seq<Io>)
    requires LeftAlone(s, book, listing, ios) && ios != []
    ensures LeftAlone(s, book, listing, ios[..|ios| - 1])
    ensures Calm(s, ios[|ios| - 1], listing)
    ensures FreshMints(s, ios[|ios| - 1], Cycles(s, book, listing, ios[..|ios| - 1]), listing)
  {
    hide Calm, FreshMints, Cycles;
    var init := ios[..|ios| - 1];
    forall n | 0 <= n < |init|
      ensures Calm(s, init[n], listing) && FreshMints(s, init[n], Cycles(s, book, listing, init[..n]), listing)
    {
      assert init[n] == ios[n] && init[..n] == ios[..n];
    }
  }

  lemma NextReady(s: Settings, book: Book, listing: seq<string>, ios: seq<Io>)
    requires Reachable(s, book, listing) && LeftAlone(s, book, listing, ios) && ios != []
    ensures Ready(s, ios[|ios| - 1], Cycles(s, book, listing, ios[..|ios| - 1]), listing)
  {
    hide Cycles, Lawful, Unique, BookOk, FreshMints, Calm;
    LeftAloneBefore(s, book, listing, ios);
    RunReady(s, book, listing, ios[..|ios| - 1]);
  }

  /** Two cycles bring every file down to level 1 and keep it there. */
  lemma {:induction false} RunSettles(s: Settings, book: Book, listing: seq<string>, ios: seq<Io>)
    requires Sound(s, book, listing) && LeftAlone(s, book, listing, ios) && ios != []
    ensures AllAtMost(if |ios| == 1 then 2 else 1, s, Cycles(s, book, listing, ios))
  {
    hide Ready, Cycle, LeftAlone, Lawful;
    var init, last := ios[..|ios| - 1], ios[|ios| - 1];
    var b := Cycles(s, book, listing, init);
    NextReady(s, book, listing, ios);
    if init == [] {
      FirstCycle(s, last, b, listing);
    } else {
      LeftAloneBefore(s, book, listing, ios);
      RunSettles(s, book, listing, init);
      LevelDrops(s, last, b, listing);
    }
  }

  lemma LevelDrops(s: Settings, io: Io, book: Book, listing: seq<string>)
    requires Ready(s, io, book, listing) && (AllAtMost(2, s, book) || AllAtMost(1, s, book))
    ensures AllAtMost(1, s, Cycle(s, io, book, listing))
  {
    SameFiles(s, io, book, listing);
    LevelsNest(s, book);
    hide Cycle, AtMost, Scanned, ScanOutcome, SweepOutcome, Lawful;
    forall p | p in book.files
      ensures AtMost(1, s, EntryOf(Cycle(s, io, book, listing).hashes, p), Cycle(s, io, book, listing).files[p])
    {
      var n :| 0 <= n < |listing| && listing[n] == p;
      assert AtMost(2, s, EntryOf(book.hashes, p), book.files[p]);
      LaterCycle(s, io, book, listing, 2, n);
    }
  }

  lemma LevelsNest(s: Settings, book: Book)
    ensures AllAtMost(1, s, book) ==> AllAtMost(2, s, book)
  {
    hide Hashed, SweepDue, Written;
    if AllAtMost(1, s, book) {
      forall p | p in book.files ensures AtMost(2, s, EntryOf(book.hashes, p), book.files[p]) {
        assert AtMost(1, s, EntryOf(book.hashes, p), book.files[p]);
      }
    }
  }

  lemma SilentCycle(s: Settings, io: Io, book: Book, listing: seq<string>)
    requires Ready(s, io, book, listing) && AllAtMost(1, s, book) && book.hashes.Keys <= (set p | p in listing)
    ensures CycleReport(s, io, book, listing) == SILENCE
  {
    var pruned := Pruned(book, listing);
    ScannedFiles(s, io, pruned, listing);
    hide Ready, AllAtMost, Cycle, Scanned, ScanOutcome, SweepOutcome, AtMost;
    forall n | 0 <= n < |listing| && listing[n] in Scanned(s, io, pruned, listing[..n]).files
      ensures !ScanOutcome(s, io, pruned, listing, n).changed
      ensures ScanOutcome(s, io, pruned, listing, n).action == Nothing
    {
      LevelOf(s, io, book, listing, 1, n);
      LaterCycle(s, io, book, listing, 1, n);
    }
    forall p | p in Scanned(s, io, pruned, listing).files
      ensures SweepOutcome(s, io, pruned, listing, p).action == Nothing
    {
      ListedFile(s, io, book, listing, p);
      var n :| 0 <= n < |listing| && listing[n] == p;
      LevelOf(s, io, book, listing, 1, n);
      LaterCycle(s, io, book, listing, 1, n);
    }
    assert Deleted(book, listing) == {};
  }

  lemma LevelOf(s: Settings, io: Io, book: Book, listing: seq<string>, level: int, n: nat)
    requires Ready(s, io, book, listing) && n < |listing| && AllAtMost(level, s, book)
    ensures listing[n] in book.files && AtMost(level, s, EntryOf(book.hashes, listing[n]), book.files[listing[n]])
  {
    hide AtMost, Lawful;
    assert listing[n] in listing;
  }

  lemma ListedFile(s: Settings, io: Io, book: Book, listing: seq<string>, p: string)
    requires Ready(s, io, book, listing) && p in book.files
    ensures p in listing
  {
  }

  /** Quiescence: left alone, from the third cycle on the scanner writes no file and
      reports no task changed and no identifier deleted. */
  lemma Quiescence(s: Settings, book: Book, listing: seq<string>, ios: seq<Io>)
    requires Sound(s, book, listing) && LeftAlone(s, book, listing, ios) && |ios| >= 3
    ensures CycleReport(s, ios[|ios| - 1], Cycles(s, book, listing, ios[..|ios| - 1]), listing) == SILENCE
  {
    hide Ready, Cycles, CycleReport, Reachable, AllSettle, LeftAlone, AllAtMost;
    LeftAloneBefore(s, book, listing, ios);
    RunSettles(s, book, listing, ios[..|ios| - 1]);
    RunReady(s, book, listing, ios[..|ios| - 1]);
    NextReady(s, book, listing, ios);
    SilentCycle(s, ios[|ios| - 1], Cycles(s, book, listing, ios[..|ios| - 1]), listing);
  }

  lemma LeftAlonePrefix(s: Settings, book: Book, listing: seq<string>, ios: seq<Io>, n: nat)
    requires LeftAlone(s, book, listing, ios) && n <= |ios|
    ensures LeftAlone(s, book, listing, ios[..n])
  {
    hide Calm, FreshMints, Cycles;
    forall m | 0 <= m < n
      ensures Calm(s, ios[m], listing) && FreshMints(s, ios[m], Cycles(s, book, listing, ios[..n][..m]), listing)
    {
      assert ios[..n][..m] == ios[..m];
    }
  }

  /** Every cycle of a run starts ready, and from the second on every file is settled. */
  lemma ReadyAt(s: Settings, book: Book, listing: seq<string>, ios: seq<Io>, c: nat)
    requires Sound(s, book, listing) && LeftAlone(s, book, listing, ios) && c < |ios|
    ensures Ready(s, ios[c], Cycles(s, book, listing, ios[..c]), listing)
    ensures c > 0 ==> AllAtMost(if c == 1 then 2 else 1, s, Cycles(s, book, listing, ios[..c]))
  {
    hide Ready, Cycles, Reachable, AllSettle, LeftAlone, AllAtMost;
    LeftAlonePrefix(s, book, listing, ios, c + 1);
    LeftAlonePrefix(s, book, listing, ios, c);
    assert ios[..c + 1][..c] == ios[..c];
    NextReady(s, book, listing, ios[..c + 1]);
    if c > 0 { RunSettles(s, book, listing, ios[..c]); }
  }

  predicate ScanWrites(s: Settings, book: Book, listing: seq<string>, ios: seq<Io>, c: nat, n: nat)
    requires c < |ios| && n < |listing|
  {
    WrittenInScan(s, ios[c], Pruned(Cycles(s, book, listing, ios[..c]), listing), listing, n)
  }

  predicate SweepWrites(s: Settings, book: Book, listing: seq<string>, ios: seq<Io>, c: nat, n: nat)
    requires c < |ios| && n < |listing|
  {
    WrittenInSweep(s, ios[c], Pruned(Cycles(s, book, listing, ios[..c]), listing), listing, listing[n])
  }

  /** Over a whole run, a file is repaired or reset at most once, in the first cycle, and
      swept at most once, in the first or the second. */
  lemma FiresAtMostOnce(s: Settings, book: Book, listing: seq<string>, ios: seq<Io>, n: nat, c: nat, d: nat)
    requires Sound(s, book, listing) && LeftAlone(s, book, listing, ios) && n < |listing| && c < d < |ios|
    ensures !ScanWrites(s, book, listing, ios, d, n)
    ensures !(SweepWrites(s, book, listing, ios, c, n) && SweepWrites(s, book, listing, ios, d, n))
    ensures d >= 2 ==> !SweepWrites(s, book, listing, ios, d, n)
  {
    hide Ready, Cycles, Sound, LeftAlone, AllAtMost, Scanned, Cycle, Pruned, ScanOutcome, SweepOutcome, AtMost;
    var now := Cycles(s, book, listing, ios[..d]);
    var level := if d == 1 then 2 else 1;
    ReadyAt(s, book, listing, ios, d);
    LevelOf(s, ios[d], now, listing, level, n);
    LaterCycle(s, ios[d], now, listing, level, n);
    if d == 1 && SweepWrites(s, book, listing, ios, c, n) {
      ReadyAt(s, book, listing, ios, 0);
      FirstTwo(s, book, listing, ios);
      SettlingFile(s, book, listing, n);
      FirstCycleOf(s, ios[0], book, listing, n);
      SweepsOrNot(s, ios[0], Pruned(book, listing), listing, listing[n]);
      LaterCycle(s, ios[1], now, listing, 1, n);
    }
  }

  lemma FirstTwo(s: Settings, book: Book, listing: seq<string>, ios: seq<Io>)
    requires |ios| >= 2
    ensures Cycles(s, book, listing, ios[..0]) == book
    ensures Cycles(s, book, listing, ios[..1]) == Cycle(s, ios[0], book, listing)
  {
    hide Cycle;
    assert ios[..1] == [ios[0]] && [ios[0]][..0] == [];
    assert Cycles(s, book, listing, []) == book;
  }

  lemma SettlingFile(s: Settings, book: Book, listing: seq<string>, n: nat)
    requires Sound(s, book, listing) && n < |listing|
    ensures listing[n] in book.files && SettlesSoon(s, EntryOf(book.hashes, listing[n]), book.files[listing[n]])
  {
    hide SettlesSoon, Lawful;
    assert listing[n] in listing;
  }

  lemma SweepsOrNot(s: Settings, io: Io, book: Book, listing: seq<string>, p: string)
    requires p in Scanned(s, io, book, listing).files
    ensures var action := SweepOutcome(s, io, book, listing, p).action; action == Nothing || action == Sweeping
  {
    hide Scanned, Writers.Sweepable, Writers.SweepWrite;
  }
}
