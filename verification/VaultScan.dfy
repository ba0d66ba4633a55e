/** One scan cycle of the vault scanner as a function of its bookkeeping and of the
    files: prune vanished paths, process every listed file, sweep capped idle records.
    What YAML, line surgery and hashing do to file text is a parameter (`Codec`); a
    stored hash is the hashed text itself, with None for the zero-hash sentinel. */
module VaultScan {
  import opened Records
  import opened Text
  import opened ResultWriter
  import opened Writers

  /** `view` is the parse of a scan (last duplicate key wins), `strict` the parse of a
      rewrite (duplicate keys are refused); `strip` removes task_identifier, `inject`
      writes a new one, with the replaced value as predecessor when it is non-empty. */
  datatype Codec = Codec(
    view: string -> Option<Frontmatter>,
    strict: string -> Option<Frontmatter>,
    body: string -> string,
    render: (Frontmatter, string) -> string,
    strip: string -> string,
    inject: (string, string, string) -> Option<string>,
    isUuid: string -> bool)

  datatype Settings = Settings(config: Config, codec: Codec, autoInject: bool)

  /** What the outside world does during one cycle. */
  datatype Io = Io(readFails: set<string>, writeFails: set<string>, mint: string -> string, ts: string)

  datatype Entry = Entry(hash: Option<string>, id: string, assignee: string, capped: bool, phase: string)

  const NO_ENTRY := Entry(None, "", "", false, "")

  datatype Action = Nothing | Repairing | Resetting | Sweeping

  /** What happened to one file: its new bookkeeping and text, whether the task is
      reported changed, what was written, and whether a write failed. */
  datatype Outcome = Outcome(entry: Option<Entry>, text: string, changed: bool, action: Action, failed: bool)

  datatype Book = Book(hashes: map<string, Entry>, files: map<string, string>)

  // ---------------------------------------------------------------- one file

  function IdentifierOf(fm: Frontmatter): Option<string> {
    match Get(fm, TaskIdentifier)
    case Some(Str(s)) => Some(s)
    case _ => None
  }

  /** The frontmatter names a usable identifier. */
  predicate Identified(s: Settings, fm: Frontmatter) {
    IdentifierOf(fm).Some? && s.codec.isUuid(IdentifierOf(fm).value)
  }

  function PhaseText(lib: Library, fm: Frontmatter): string {
    match lib.PhaseOf(fm)
    case Some(p) => p
    case None => ""
  }

  /** recordablePrevious: a replaced value worth keeping as predecessor. */
  function Predecessor(fm: Frontmatter): string {
    match IdentifierOf(fm)
    case Some(id) => if HasText(id) && '\r' !in id && '\n' !in id then id else ""
    case None => ""
  }

  predicate Converges(s: Settings, text: string, id: string) {
    s.codec.view(text).Some? && Get(s.codec.view(text).value, TaskIdentifier) == Some(Str(id))
  }

  /** injectAndStore, on the text to inject into. */
  function Inject(s: Settings, io: Io, path: string, entry: Option<Entry>, text: string, into: string,
                  assignee: string, previous: string): Outcome
  {
    var id := io.mint(path);
    match s.codec.inject(into, id, previous)
    case None => Outcome(entry, text, false, Nothing, false)
    case Some(next) =>
      if !Converges(s, next, id) then
        Outcome(Some(Entry(Some(text), "", assignee, false, "")), text, false, Nothing, false)
      else if path in io.writeFails then Outcome(entry, text, false, Nothing, true)
      else Outcome(Some(Entry(None, id, assignee, false, "")), next, false, Repairing, false)
  }

  function ResetText(s: Settings, text: string): Option<string> {
    match s.codec.strict(text)
    case Some(fm) => Some(s.codec.render(fm[TriggerCount := Int(0)], s.codec.body(text)))
    case None => None
  }

  /** The file names a usable identifier that no other path holds. */
  function Accept(s: Settings, io: Io, path: string, entry: Option<Entry>, text: string, fm: Frontmatter): Outcome
    requires Identified(s, fm)
  {
    var id, assignee := IdentifierOf(fm).value, AssigneeOf(fm);
    var previous := if entry.Some? then entry.value else NO_ENTRY;
    if assignee != "" && previous.id != "" && previous.assignee == "" then
      var reset := ResetText(s, text);
      if reset.None? || path in io.writeFails then Outcome(entry, text, false, Nothing, true)
      else Outcome(Some(Entry(None, id, assignee, false, "")), reset.value, false, Resetting, false)
    else
      var phase := PhaseText(s.config.lib, fm);
      Outcome(Some(Entry(Some(text), id, assignee, CappedIdle(fm), phase)), text,
              s.config.lib.StatusOf(fm) != "" && (assignee != "" || (previous.phase != "" && previous.phase != phase)),
              Nothing, false)
  }

  /** processFile, given whether the file's identifier is booked to no other path. */
  function Process(s: Settings, io: Io, path: string, entry: Option<Entry>, text: string, unique: bool): Outcome {
    var same := Outcome(entry, text, false, Nothing, false);
    if path in io.readFails || (entry.Some? && entry.value.hash == Some(text)) then same
    else
      match s.codec.view(text)
      case None => same
      case Some(fm) =>
        if Identified(s, fm) && unique then Accept(s, io, path, entry, text, fm)
        else if !s.autoInject then same
        else if TaskIdentifier !in fm then Inject(s, io, path, entry, text, text, AssigneeOf(fm), "")
        else
          var previous := if Identified(s, fm) then "" else Predecessor(fm);
          Inject(s, io, path, entry, text, s.codec.strip(text), AssigneeOf(fm), previous)
  }

  /** isIdentifierUnique for the identifier the text names. */
  predicate UniqueFor(s: Settings, hashes: map<string, Entry>, path: string, text: string) {
    var fm := s.codec.view(text);
    fm.Some? && IdentifierOf(fm.value).Some? ==>
      forall p :: p in hashes && p != path ==> hashes[p].id != IdentifierOf(fm.value).value
  }

  function EntryOf(hashes: map<string, Entry>, path: string): Option<Entry> {
    if path in hashes then Some(hashes[path]) else None
  }

  function Put(book: Book, path: string, o: Outcome): Book {
    Book(if o.entry.Some? then book.hashes[path := o.entry.value] else book.hashes,
         book.files[path := o.text])
  }

  function OutcomeAt(s: Settings, io: Io, book: Book, path: string): Outcome
    requires path in book.files
  {
    Process(s, io, path, EntryOf(book.hashes, path), book.files[path],
            UniqueFor(s, book.hashes, path, book.files[path]))
  }

  function ProcessPath(s: Settings, io: Io, book: Book, path: string): Book {
    if path !in book.files then book else Put(book, path, OutcomeAt(s, io, book, path))
  }

  // ---------------------------------------------------------------- the sweep

  predicate Candidate(entry: Option<Entry>) {
    entry.Some? && entry.value.capped && entry.value.assignee != ""
  }

  /** escalateCappedTask on one file, whose path is a sweep candidate. */
  function SweepFile(s: Settings, io: Io, path: string, entry: Option<Entry>, text: string): Outcome {
    var same := Outcome(entry, text, false, Nothing, false);
    if !Candidate(entry) then same
    else
      match s.codec.strict(text)
      case None => same.(failed := true)
      case Some(fm) =>
        if path in io.readFails then same.(failed := true)
        else if !Sweepable(s.config, fm) then same
        else if path in io.writeFails then same.(failed := true)
        else
          var t := SweepWrite(s.config, io.ts, Task(fm, s.codec.body(text)));
          Outcome(Some(Entry(None, entry.value.id, "", false, "")), s.codec.render(t.fm, t.body), false, Sweeping, false)
  }

  function SweepAt(s: Settings, io: Io, book: Book, path: string): Outcome
    requires path in book.files
  {
    SweepFile(s, io, path, EntryOf(book.hashes, path), book.files[path])
  }

  /** The sweep touches each candidate once, independently of the others. */
  function Swept(s: Settings, io: Io, book: Book): Book {
    Book(map p | p in book.hashes ::
           if p in book.files && SweepAt(s, io, book, p).entry.Some? then SweepAt(s, io, book, p).entry.value
           else book.hashes[p],
         map p | p in book.files :: SweepAt(s, io, book, p).text)
  }

  /** The sweep after it has visited the candidates in `done`. */
  function SweptOn(s: Settings, io: Io, book: Book, done: set<string>): Book {
    Book(map p | p in book.hashes ::
           if p in done && p in book.files && SweepAt(s, io, book, p).entry.Some? then SweepAt(s, io, book, p).entry.value
           else book.hashes[p],
         map p | p in book.files :: if p in done then SweepAt(s, io, book, p).text else book.files[p])
  }

  lemma SweptOneMore(s: Settings, io: Io, book: Book, done: set<string>, p: string)
    requires p in book.hashes && p !in done
    ensures var b := SweptOn(s, io, book, done);
            && (p in b.files <==> p in book.files)
            && (p in book.files ==> b.files[p] == book.files[p] && EntryOf(b.hashes, p) == EntryOf(book.hashes, p))
            && SweptOn(s, io, book, done + {p}) == if p in book.files then Put(b, p, SweepAt(s, io, book, p)) else b
  {
    hide SweepFile;
  }

  lemma SweptAll(s: Settings, io: Io, book: Book)
    ensures SweptOn(s, io, book, {}) == book
    ensures SweptOn(s, io, book, book.hashes.Keys) == Swept(s, io, book)
  {
    hide SweepAt;
    assert SweptOn(s, io, book, {}).hashes == book.hashes && SweptOn(s, io, book, {}).files == book.files;
    forall p | p in book.files && p !in book.hashes ensures SweepAt(s, io, book, p).text == book.files[p] {
      NotSwept(s, io, book, p);
    }
    assert SweptOn(s, io, book, book.hashes.Keys).hashes == Swept(s, io, book).hashes;
    assert SweptOn(s, io, book, book.hashes.Keys).files == Swept(s, io, book).files;
  }

  lemma NotSwept(s: Settings, io: Io, book: Book, p: string)
    requires p in book.files && p !in book.hashes
    ensures SweepAt(s, io, book, p).text == book.files[p]
  {
    hide Sweepable, SweepWrite;
  }

  // ---------------------------------------------------------------- one cycle

  /** What a cycle reports: changed tasks, deleted identifiers, written paths. */
  datatype Report = Report(changed: set<string>, deleted: set<string>, written: set<string>)

  function Pruned(book: Book, listing: seq<string>): Book {
    book.(hashes := map p | p in book.hashes && p in listing :: book.hashes[p])
  }

  function Deleted(book: Book, listing: seq<string>): set<string> {
    set p | p in book.hashes && p !in listing && book.hashes[p].id != "" :: book.hashes[p].id
  }

  function Scanned(s: Settings, io: Io, book: Book, listing: seq<string>): Book {
    if listing == [] then book
    else ProcessPath(s, io, Scanned(s, io, book, listing[..|listing| - 1]), listing[|listing| - 1])
  }

  /** The outcome of the n-th listed path, on the bookkeeping it meets. */
  function ScanOutcome(s: Settings, io: Io, book: Book, listing: seq<string>, n: nat): Outcome
    requires n < |listing| && listing[n] in Scanned(s, io, book, listing[..n]).files
  {
    OutcomeAt(s, io, Scanned(s, io, book, listing[..n]), listing[n])
  }

  function Cycle(s: Settings, io: Io, book: Book, listing: seq<string>): Book {
    Swept(s, io, Scanned(s, io, Pruned(book, listing), listing))
  }

  /** What the sweep did to a path. */
  function SweepOutcome(s: Settings, io: Io, book: Book, listing: seq<string>, p: string): Outcome
    requires p in Scanned(s, io, book, listing).files
  {
    SweepAt(s, io, Scanned(s, io, book, listing), p)
  }

  predicate ReportedChanged(s: Settings, io: Io, book: Book, listing: seq<string>, n: nat)
    requires n < |listing|
  {
    listing[n] in Scanned(s, io, book, listing[..n]).files && ScanOutcome(s, io, book, listing, n).changed
  }

  predicate WrittenInScan(s: Settings, io: Io, book: Book, listing: seq<string>, n: nat)
    requires n < |listing|
  {
    listing[n] in Scanned(s, io, book, listing[..n]).files && ScanOutcome(s, io, book, listing, n).action != Nothing
  }

  predicate WrittenInSweep(s: Settings, io: Io, book: Book, listing: seq<string>, p: string) {
    p in Scanned(s, io, book, listing).files && SweepOutcome(s, io, book, listing, p).action != Nothing
  }

  predicate FailedInScan(s: Settings, io: Io, book: Book, listing: seq<string>, n: nat)
    requires n < |listing|
  {
    listing[n] in Scanned(s, io, book, listing[..n]).files && ScanOutcome(s, io, book, listing, n).failed
  }

  predicate FailedInSweep(s: Settings, io: Io, book: Book, listing: seq<string>, p: string) {
    p in Scanned(s, io, book, listing).files && SweepOutcome(s, io, book, listing, p).failed
  }

  /** What the scan of the first `n` paths reports. */
  function ChangedPaths(s: Settings, io: Io, book: Book, listing: seq<string>, n: nat): set<string>
    requires n <= |listing|
  {
    set m | 0 <= m < n && ReportedChanged(s, io, book, listing, m) :: listing[m]
  }

  function WrittenPaths(s: Settings, io: Io, book: Book, listing: seq<string>, n: nat): set<string>
    requires n <= |listing|
  {
    set m | 0 <= m < n && WrittenInScan(s, io, book, listing, m) :: listing[m]
  }

  predicate AnyFailed(s: Settings, io: Io, book: Book, listing: seq<string>, n: nat)
    requires n <= |listing|
  {
    exists m :: 0 <= m < n && FailedInScan(s, io, book, listing, m)
  }

  /** The outcome of visiting a path, if there is a file. */
  function VisitOutcome(s: Settings, io: Io, book: Book, path: string): Outcome {
    if path in book.files then OutcomeAt(s, io, book, path) else Outcome(None, "", false, Nothing, false)
  }

  lemma ReportOneMore(s: Settings, io: Io, book: Book, listing: seq<string>, n: nat)
    requires n < |listing|
    ensures var o, p := VisitOutcome(s, io, Scanned(s, io, book, listing[..n]), listing[n]), listing[n];
            && ChangedPaths(s, io, book, listing, n + 1)
               == ChangedPaths(s, io, book, listing, n) + (if o.changed then {p} else {})
            && WrittenPaths(s, io, book, listing, n + 1)
               == WrittenPaths(s, io, book, listing, n) + (if o.action != Nothing then {p} else {})
            && (AnyFailed(s, io, book, listing, n + 1) <==> (AnyFailed(s, io, book, listing, n) || o.failed))
  {
    hide Scanned, OutcomeAt;
    var o := VisitOutcome(s, io, Scanned(s, io, book, listing[..n]), listing[n]);
    assert ReportedChanged(s, io, book, listing, n) == o.changed;
    assert WrittenInScan(s, io, book, listing, n) == (o.action != Nothing);
    assert FailedInScan(s, io, book, listing, n) == o.failed;
    hide ReportedChanged, WrittenInScan, FailedInScan;
  }

  /** Some write of the cycle failed. */
  predicate CycleFailed(s: Settings, io: Io, book: Book, listing: seq<string>) {
    var pruned := Pruned(book, listing);
    || AnyFailed(s, io, pruned, listing, |listing|)
    || (exists p :: p in pruned.files && FailedInSweep(s, io, pruned, listing, p))
  }

  /** The report of a cycle: published tasks, deleted identifiers, written files. */
  function CycleReport(s: Settings, io: Io, book: Book, listing: seq<string>): Report {
    var pruned := Pruned(book, listing);
    Report(
      ChangedPaths(s, io, pruned, listing, |listing|),
      Deleted(book, listing),
      WrittenPaths(s, io, pruned, listing, |listing|)
      + (set p | p in pruned.files && WrittenInSweep(s, io, pruned, listing, p)))
  }

  lemma ScannedOneMore(s: Settings, io: Io, book: Book, listing: seq<string>, n: nat)
    requires n < |listing|
    ensures Scanned(s, io, book, listing[..n + 1])
         == ProcessPath(s, io, Scanned(s, io, book, listing[..n]), listing[n])
  {
    assert listing[..n + 1][..n] == listing[..n];
  }

  lemma {:induction false} ScannedFiles(s: Settings, io: Io, book: Book, listing: seq<string>)
    ensures Scanned(s, io, book, listing).files.Keys == book.files.Keys
  {
    hide OutcomeAt;
    if listing != [] {
      ScannedFiles(s, io, book, listing[..|listing| - 1]);
    }
  }

  /** Processing a path concerns its own entry and text alone. */
  lemma ProcessFrame(s: Settings, io: Io, book: Book, path: string, other: string)
    requires other != path
    ensures var b := ProcessPath(s, io, book, path);
            EntryOf(b.hashes, other) == EntryOf(book.hashes, other)
            && (other in b.files <==> other in book.files)
            && (other in book.files ==> b.files[other] == book.files[other])
  {
    hide OutcomeAt;
  }

  predicate NoRepeats(listing: seq<string>) {
    forall i, j :: 0 <= i < j < |listing| ==> listing[i] != listing[j]
  }

  /** A path not yet reached is as the cycle found it. */
  lemma {:induction false} ScanFrame(s: Settings, io: Io, book: Book, listing: seq<string>, path: string)
    requires path !in listing
    ensures var b := Scanned(s, io, book, listing);
            EntryOf(b.hashes, path) == EntryOf(book.hashes, path)
            && (path in b.files <==> path in book.files)
            && (path in book.files ==> b.files[path] == book.files[path])
  {
    hide ProcessPath;
    if listing != [] {
      var init := listing[..|listing| - 1];
      ScanFrame(s, io, book, init, path);
      ProcessFrame(s, io, Scanned(s, io, book, init), listing[|listing| - 1], path);
    }
  }
}
