/** Why quiescence needs identifier injection: where nothing is injected, because it is
    switched off or because the files have no line to inject behind, files that merely
    wait for a stale booking to clear are accepted one per cycle, so a file can be
    reported changed in the third cycle (and, with a longer chain, in a later one). */
module ScanChain {
  import opened Records
  import opened VaultScan
  import opened ScanIdentity
  import opened ScanQuiescence
  import Writers

  function Fm(id: string): Frontmatter {
    map[TaskIdentifier := Str(id), Assignee := Str("agent"), Status := Str("in_progress")]
  }

  function Stale(id: string): Entry { Entry(None, id, "agent", false, "") }

  function Accepted(id: string, text: string): Entry { Entry(Some(text), id, "agent", false, "") }

  /** Three files: each of the last two names the identifier its neighbour was last
      booked under, and is visited before that neighbour. */
  function Chain(e1: Entry, e2: Entry, e3: Entry): Book {
    Book(map["p1" := e1, "p2" := e2, "p3" := e3], map["p1" := "x", "p2" := "a", "p3" := "b"])
  }

  const LISTING := ["p3", "p2", "p1"]

  predicate Reads(s: Settings, text: string, id: string) {
    s.codec.view(text) == Some(Fm(id)) && s.codec.isUuid(id)
  }

  ghost predicate Impossible(s: Settings, text: string) {
    forall id, previous :: s.codec.inject(s.codec.strip(text), id, previous) == None
  }

  ghost predicate Setting(s: Settings, io: Io) {
    && (s.autoInject ==> Impossible(s, "a") && Impossible(s, "b") && Impossible(s, "x"))
    && s.config.lib.status("in_progress") != "" && io.readFails == {} && io.writeFails == {}
    && Reads(s, "x", "X") && Reads(s, "a", "A") && Reads(s, "b", "B")
  }

  /** The path is booked and its text, in which nothing can be injected, names `id`. */
  ghost predicate Met(s: Settings, io: Io, book: Book, path: string, id: string) {
    && Setting(s, io) && path in book.files && path in book.hashes && Reads(s, book.files[path], id)
    && (s.autoInject ==> Impossible(s, book.files[path]))
    && book.hashes[path].assignee == "agent" && book.hashes[path].phase == ""
  }

  predicate Taken(book: Book, path: string, id: string) {
    exists p :: p in book.hashes && p != path && book.hashes[p].id == id
  }

  /** Where nothing is injected a file is either skipped, as its identifier is booked
      elsewhere, or accepted as it is. */
  lemma VisitResult(s: Settings, io: Io, book: Book, path: string, id: string)
    requires Met(s, io, book, path, id)
    ensures var e, text := book.hashes[path], book.files[path];
            OutcomeAt(s, io, book, path)
            == if e.hash == Some(text) || Taken(book, path, id) then Outcome(Some(e), text, false, Nothing, false)
               else Outcome(Some(Accepted(id, text)), text, true, Nothing, false)
  {
    var fm := Fm(id);
    assert Get(fm, TaskIdentifier) == Some(Str(id)) && Get(fm, Assignee) == Some(Str("agent"));
    assert Get(fm, Status) == Some(Str("in_progress")) && Get(fm, Phase) == None;
    assert !Writers.CappedIdle(fm);
    hide Fm;
    assert UniqueFor(s, book.hashes, path, book.files[path]) <==> !Taken(book, path, id);
    hide UniqueFor, Taken;
  }

  lemma Visit(s: Settings, io: Io, book: Book, path: string, id: string)
    requires Met(s, io, book, path, id)
    ensures book.hashes[path].hash == Some(book.files[path]) || Taken(book, path, id) ==>
              ProcessPath(s, io, book, path) == book
    ensures book.hashes[path].hash != Some(book.files[path]) && !Taken(book, path, id) ==>
              && ProcessPath(s, io, book, path).hashes == book.hashes[path := Accepted(id, book.files[path])]
              && ProcessPath(s, io, book, path).files == book.files
              && OutcomeAt(s, io, book, path).changed
  {
    hide OutcomeAt, Setting, Impossible, Reads, Taken;
    VisitResult(s, io, book, path, id);
    assert book.files[path := book.files[path]] == book.files && book.hashes[path := book.hashes[path]] == book.hashes;
  }

  lemma Skipped(s: Settings, io: Io, book: Book, path: string, id: string, holder: string)
    requires Met(s, io, book, path, id)
    requires holder in book.hashes && holder != path && book.hashes[holder].id == id
    ensures ProcessPath(s, io, book, path) == book
  {
    hide ProcessPath, OutcomeAt, Met;
    Visit(s, io, book, path, id);
  }

  lemma NothingCapped(s: Settings, io: Io, book: Book)
    requires forall p :: p in book.hashes ==> !book.hashes[p].capped
    ensures Swept(s, io, book) == book
  {
  }

  lemma ThreeVisits(s: Settings, io: Io, book: Book, b1: Book, b2: Book, b3: Book)
    requires b1 == ProcessPath(s, io, book, "p3") && b2 == ProcessPath(s, io, b1, "p2")
    requires b3 == ProcessPath(s, io, b2, "p1")
    ensures Scanned(s, io, book, LISTING) == b3 && Scanned(s, io, book, LISTING[..0]) == book
  {
    hide ProcessPath;
    ScannedOneMore(s, io, book, LISTING, 0);
    ScannedOneMore(s, io, book, LISTING, 1);
    ScannedOneMore(s, io, book, LISTING, 2);
    assert LISTING[..3] == LISTING && LISTING[..0] == [];
  }

  predicate Agents(e1: Entry, e2: Entry, e3: Entry) {
    && e1.assignee == "agent" && e1.phase == "" && e2.assignee == "agent" && e2.phase == ""
    && e3.assignee == "agent" && e3.phase == ""
  }

  lemma ChainMet(s: Settings, io: Io, e1: Entry, e2: Entry, e3: Entry)
    requires Setting(s, io) && Agents(e1, e2, e3)
    ensures var b := Chain(e1, e2, e3); Met(s, io, b, "p1", "X") && Met(s, io, b, "p2", "A") && Met(s, io, b, "p3", "B")
  {
    hide Impossible, Reads;
  }

  lemma FirstVisits(s: Settings, io: Io)
    requires Setting(s, io)
    ensures var book := Chain(Stale("A"), Stale("B"), Stale("C"));
            && ProcessPath(s, io, book, "p3") == book && ProcessPath(s, io, book, "p2") == book
            && ProcessPath(s, io, book, "p1") == Chain(Accepted("X", "x"), Stale("B"), Stale("C"))
  {
    hide ProcessPath, OutcomeAt, Setting, Met;
    var book := Chain(Stale("A"), Stale("B"), Stale("C"));
    ChainMet(s, io, Stale("A"), Stale("B"), Stale("C"));
    Skipped(s, io, book, "p3", "B", "p2");
    Skipped(s, io, book, "p2", "A", "p1");
    FreeVisit(s, io, book, "p1", "X");
    assert book.hashes["p1" := Accepted("X", "x")] == Chain(Accepted("X", "x"), Stale("B"), Stale("C")).hashes;
  }

  /** A stale path whose identifier is free is accepted. */
  lemma FreeVisit(s: Settings, io: Io, book: Book, path: string, id: string)
    requires Met(s, io, book, path, id) && path in book.hashes && book.hashes[path].hash == None
    requires forall p :: p in book.hashes && p != path ==> book.hashes[p].id != id
    ensures path in book.files
    ensures ProcessPath(s, io, book, path) == Book(book.hashes[path := Accepted(id, book.files[path])], book.files)
    ensures OutcomeAt(s, io, book, path).changed
  {
    hide ProcessPath, OutcomeAt, Setting, Impossible, Reads;
    Visit(s, io, book, path, id);
  }

  lemma ChainPruned(e1: Entry, e2: Entry, e3: Entry)
    ensures Pruned(Chain(e1, e2, e3), LISTING) == Chain(e1, e2, e3)
  {
  }

  lemma FirstCycleOfChain(s: Settings, io: Io)
    requires Setting(s, io)
    ensures Cycle(s, io, Chain(Stale("A"), Stale("B"), Stale("C")), LISTING)
         == Chain(Accepted("X", "x"), Stale("B"), Stale("C"))
  {
    hide ProcessPath, Scanned, Swept, Setting, Pruned;
    var book, next := Chain(Stale("A"), Stale("B"), Stale("C")), Chain(Accepted("X", "x"), Stale("B"), Stale("C"));
    FirstVisits(s, io);
    ChainPruned(Stale("A"), Stale("B"), Stale("C"));
    ThreeVisits(s, io, book, book, book, next);
    NothingCapped(s, io, next);
  }

  lemma SecondCycleOfChain(s: Settings, io: Io)
    requires Setting(s, io)
    ensures Cycle(s, io, Chain(Accepted("X", "x"), Stale("B"), Stale("C")), LISTING)
         == Chain(Accepted("X", "x"), Accepted("A", "a"), Stale("C"))
  {
    hide ProcessPath, Scanned, Swept, Setting, Pruned;
    var book := Chain(Accepted("X", "x"), Stale("B"), Stale("C"));
    var next := Chain(Accepted("X", "x"), Accepted("A", "a"), Stale("C"));
    ChainPruned(Accepted("X", "x"), Stale("B"), Stale("C"));
    SecondVisits(s, io);
    ThreeVisits(s, io, book, book, next, next);
    NothingCapped(s, io, next);
  }

  lemma SecondVisits(s: Settings, io: Io)
    requires Setting(s, io)
    ensures var book := Chain(Accepted("X", "x"), Stale("B"), Stale("C"));
            var next := Chain(Accepted("X", "x"), Accepted("A", "a"), Stale("C"));
            && ProcessPath(s, io, book, "p3") == book && ProcessPath(s, io, book, "p2") == next
            && ProcessPath(s, io, next, "p1") == next
  {
    hide ProcessPath, OutcomeAt, Setting, Met;
    var book := Chain(Accepted("X", "x"), Stale("B"), Stale("C"));
    var next := Chain(Accepted("X", "x"), Accepted("A", "a"), Stale("C"));
    ChainMet(s, io, Accepted("X", "x"), Stale("B"), Stale("C"));
    ChainMet(s, io, Accepted("X", "x"), Accepted("A", "a"), Stale("C"));
    Skipped(s, io, book, "p3", "B", "p2");
    FreeVisit(s, io, book, "p2", "A");
    assert book.hashes["p2" := Accepted("A", "a")] == next.hashes;
    Visit(s, io, next, "p1", "X");
  }

  /** The start meets every other hypothesis of quiescence: it is reachable, and no reset
      is due. */
  lemma ChainIsReachable(s: Settings, io: Io)
    requires Lawful(s) && Setting(s, io)
    ensures var start := Chain(Stale("A"), Stale("B"), Stale("C"));
            && Reachable(s, start, LISTING)
            && forall p :: p in start.files ==> !ResetDue(s, EntryOf(start.hashes, p), start.files[p])
  {
    ChainListed(Stale("A"), Stale("B"), Stale("C"));
    ChainUnique();
    hide Lawful, Setting, Lists, Unique;
  }

  lemma ChainUnique()
    ensures Unique(Chain(Stale("A"), Stale("B"), Stale("C")).hashes)
  {
  }

  lemma ChainListed(e1: Entry, e2: Entry, e3: Entry)
    ensures Lists(LISTING, Chain(e1, e2, e3).files)
  {
    assert LISTING[0] == "p3" && LISTING[1] == "p2" && LISTING[2] == "p1";
    assert forall x :: x in LISTING <==> x == "p1" || x == "p2" || x == "p3";
  }

  /** The third cycle still reports a changed task: p3 had to wait for p2, which had to
      wait for p1. */
  lemma ThirdCycleReports(s: Settings, io1: Io, io2: Io, io3: Io)
    requires Setting(s, io1) && Setting(s, io2) && Setting(s, io3) && Lawful(s)
    requires LeftAlone(s, Chain(Stale("A"), Stale("B"), Stale("C")), LISTING, [io1, io2, io3])
    ensures var start := Chain(Stale("A"), Stale("B"), Stale("C"));
            && Reachable(s, start, LISTING)
            && (forall p :: p in start.files ==> !ResetDue(s, EntryOf(start.hashes, p), start.files[p]))
            && "p3" in CycleReport(s, io3, Cycles(s, start, LISTING, [io1, io2]), LISTING).changed
  {
    hide *;
    var start, second := Chain(Stale("A"), Stale("B"), Stale("C")), Chain(Accepted("X", "x"), Accepted("A", "a"), Stale("C"));
    ChainIsReachable(s, io1);
    FirstCycleOfChain(s, io1);
    SecondCycleOfChain(s, io2);
    CyclesOfTwo(s, start, LISTING, io1, io2);
    AcceptedLate(s, io3);
  }

  lemma CyclesOfTwo(s: Settings, book: Book, listing: seq<string>, io1: Io, io2: Io)
    ensures Cycles(s, book, listing, [io1, io2]) == Cycle(s, io2, Cycle(s, io1, book, listing), listing)
  {
    hide Cycle;
    assert [io1, io2][..1] == [io1] && [io1][..0] == [];
    assert Cycles(s, book, listing, []) == book;
    assert Cycles(s, book, listing, [io1]) == Cycle(s, io1, book, listing);
  }

  lemma AcceptedLate(s: Settings, io: Io)
    requires Setting(s, io)
    ensures "p3" in CycleReport(s, io, Chain(Accepted("X", "x"), Accepted("A", "a"), Stale("C")), LISTING).changed
  {
    hide ProcessPath, OutcomeAt, Pruned, WrittenPaths, Met, Setting;
    var book := Chain(Accepted("X", "x"), Accepted("A", "a"), Stale("C"));
    ChainPruned(Accepted("X", "x"), Accepted("A", "a"), Stale("C"));
    ChainMet(s, io, Accepted("X", "x"), Accepted("A", "a"), Stale("C"));
    FreeVisit(s, io, book, "p3", "B");
    assert LISTING[..0] == [] && Scanned(s, io, book, []) == book && LISTING[0] == "p3";
    assert ReportedChanged(s, io, book, LISTING, 0);
  }
}
