/** Why quiescence needs a due reset to be possible: a file with duplicate keys cannot be
    reset, keeps its stale booking, and may meanwhile lose its identifier to another file.
    It is then repaired a cycle late, and reported changed in the third. */
module ScanDuplicates {
  import opened Records
  import opened VaultScan
  import opened ScanIdentity
  import opened ScanQuiescence
  import opened ScanChain
  import Writers

  const PAIR := ["p", "q"]

  /** "p" was booked under B without an owner; its text now names A and an owner, twice
      over. "q" names A too and is new. */
  function Start(): Book {
    Book(map["p" := Entry(None, "B", "", false, "")], map["p" := "d", "q" := "a"])
  }

  function Second(): Book {
    Book(map["p" := Entry(None, "B", "", false, ""), "q" := Accepted("A", "a")], map["p" := "d", "q" := "a"])
  }

  function Third(mint: string, next: string): Book {
    Book(map["p" := Entry(None, mint, "agent", false, ""), "q" := Accepted("A", "a")], map["p" := next, "q" := "a"])
  }

  /** Only "d" has duplicate keys; everything can be injected into. */
  ghost predicate Given(s: Settings) {
    && s.config.lib.status("in_progress") != ""
    && Reads(s, "d", "A") && s.codec.strict("d") == None && Injectable(s, "d")
    && Reads(s, "a", "A") && s.codec.strict("a").Some? && Injectable(s, "a")
  }

  /** What the repair of the second cycle writes. */
  predicate Repairs(s: Settings, mint: string, next: string) {
    s.codec.inject(s.codec.strip("d"), mint, "") == Some(next) && Reads(s, next, mint)
  }

  lemma FmParts(id: string)
    ensures AssigneeOf(Fm(id)) == "agent" && IdentifierOf(Fm(id)) == Some(id) && Get(Fm(id), Phase) == None
    ensures Get(Fm(id), TaskIdentifier) == Some(Str(id)) && Get(Fm(id), Status) == Some(Str("in_progress"))
    ensures !Writers.CappedIdle(Fm(id))
  {
  }

  lemma StartIsReachable(s: Settings)
    requires Lawful(s) && Given(s)
    ensures Reachable(s, Start(), PAIR)
    ensures Settles(s, EntryOf(Start().hashes, "q"), "a")
  {
    hide Lawful;
    assert PAIR[0] == "p" && PAIR[1] == "q";
    assert forall x :: x in PAIR <==> x == "p" || x == "q";
  }

  /** The reset is due and fails; "p" keeps its booking. */
  lemma ResetFails(s: Settings, io: Io)
    requires Given(s) && io.readFails == {} && io.writeFails == {}
    ensures ProcessPath(s, io, Start(), "p") == Start()
  {
    hide Injectable;
    FmParts("A");
    hide Fm;
    var b := Start();
    assert UniqueFor(s, b.hashes, "p", "d");
    assert OutcomeAt(s, io, b, "p") == Outcome(Some(b.hashes["p"]), "d", false, Nothing, true);
    assert b.hashes["p" := b.hashes["p"]] == b.hashes && b.files["p" := "d"] == b.files;
  }

  lemma OtherTakesIdentifier(s: Settings, io: Io)
    requires Given(s) && io.readFails == {} && io.writeFails == {}
    ensures ProcessPath(s, io, Start(), "q") == Second()
  {
    hide Injectable;
    FmParts("A");
    hide Fm;
    var b := Start();
    assert UniqueFor(s, b.hashes, "q", "a");
    assert OutcomeAt(s, io, b, "q").entry == Some(Accepted("A", "a")) && OutcomeAt(s, io, b, "q").text == "a";
    assert b.hashes["q" := Accepted("A", "a")] == Second().hashes && b.files["q" := "a"] == b.files;
  }

  lemma RepairedLate(s: Settings, io: Io, next: string)
    requires Given(s) && io.readFails == {} && io.writeFails == {} && Repairs(s, io.mint("p"), next)
    ensures ProcessPath(s, io, Second(), "p") == Third(io.mint("p"), next)
  {
    hide Injectable;
    FmParts("A");
    FmParts(io.mint("p"));
    assert s.autoInject by { SwitchedOn(s); }
    hide Fm, Given;
    var b, c := Second(), Third(io.mint("p"), next);
    assert b.hashes["q"].id == "A";
    RepairOutcome(s, io, next);
    hide OutcomeAt;
    assert b.hashes["p" := c.hashes["p"]] == c.hashes && b.files["p" := next] == c.files;
  }

  lemma RepairOutcome(s: Settings, io: Io, next: string)
    requires Given(s) && io.readFails == {} && io.writeFails == {} && Repairs(s, io.mint("p"), next)
    ensures "p" in Second().files
    ensures var o := OutcomeAt(s, io, Second(), "p");
            o.entry == Some(Entry(None, io.mint("p"), "agent", false, "")) && o.text == next
  {
    SwitchedOn(s);
    hide Injectable;
    FmParts("A");
    FmParts(io.mint("p"));
    hide Fm;
    var b := Second();
    assert b.hashes["q"].id == "A" && !UniqueFor(s, b.hashes, "p", "d");
  }

  lemma OtherUnread(s: Settings, io: Io, mint: string, next: string)
    ensures ProcessPath(s, io, Third(mint, next), "q") == Third(mint, next)
  {
    var c := Third(mint, next);
    assert c.hashes["q" := c.hashes["q"]] == c.hashes && c.files["q" := "a"] == c.files;
  }

  lemma SwitchedOn(s: Settings)
    requires Given(s)
    ensures s.autoInject
  {
  }

  lemma ReportedLate(s: Settings, io: Io, mint: string, next: string)
    requires Given(s) && io.readFails == {} && Repairs(s, mint, next) && mint != "A"
    ensures "p" in Third(mint, next).files && OutcomeAt(s, io, Third(mint, next), "p").changed
  {
    hide Injectable;
    FmParts(mint);
    hide Fm;
    var c := Third(mint, next);
    assert UniqueFor(s, c.hashes, "p", next);
  }

  lemma TwoVisits(s: Settings, io: Io, book: Book, b1: Book, b2: Book)
    requires b1 == ProcessPath(s, io, book, "p") && b2 == ProcessPath(s, io, b1, "q")
    requires Pruned(book, PAIR) == book && forall x :: x in b2.hashes ==> !b2.hashes[x].capped
    ensures Cycle(s, io, book, PAIR) == b2
  {
    hide ProcessPath, Swept, Pruned;
    ScannedOneMore(s, io, book, PAIR, 0);
    ScannedOneMore(s, io, book, PAIR, 1);
    assert PAIR[..2] == PAIR && PAIR[..0] == [];
    NothingCapped(s, io, b2);
  }

  lemma PairPruned(mint: string, next: string)
    ensures Pruned(Start(), PAIR) == Start() && Pruned(Second(), PAIR) == Second()
    ensures Pruned(Third(mint, next), PAIR) == Third(mint, next)
  {
    assert PAIR[0] == "p" && PAIR[1] == "q";
  }

  /** From reachable bookkeeping, left alone, with injection on: the third cycle reports a
      changed task. Of the hypotheses of quiescence only one fails, and in one file: its
      due reset meets duplicate keys. */
  lemma LateRepairReports(s: Settings, io1: Io, io2: Io, io3: Io, next: string)
    requires Lawful(s) && Given(s) && LeftAlone(s, Start(), PAIR, [io1, io2, io3])
    requires Repairs(s, io2.mint("p"), next)
    ensures Reachable(s, Start(), PAIR) && Settles(s, EntryOf(Start().hashes, "q"), "a")
    ensures "p" in CycleReport(s, io3, Cycles(s, Start(), PAIR, [io1, io2]), PAIR).changed
  {
    hide *;
    var mint := io2.mint("p");
    StartIsReachable(s);
    CalmAll(s, Start(), PAIR, io1, io2, io3);
    FirstCycleOfPair(s, io1);
    SecondCycleOfPair(s, io2, next);
    CyclesOfTwo(s, Start(), PAIR, io1, io2);
    MintedAnew(s, io2, mint);
    ReportedLate(s, io3, mint, next);
    PairPruned(mint, next);
    FirstReported(s, io3, Third(mint, next));
  }

  lemma FirstCycleOfPair(s: Settings, io: Io)
    requires Given(s) && io.readFails == {} && io.writeFails == {}
    ensures Cycle(s, io, Start(), PAIR) == Second()
  {
    hide Given, ProcessPath, Cycle, Pruned;
    PairPruned("", "");
    ResetFails(s, io);
    OtherTakesIdentifier(s, io);
    TwoVisits(s, io, Start(), Start(), Second());
  }

  lemma SecondCycleOfPair(s: Settings, io: Io, next: string)
    requires Given(s) && io.readFails == {} && io.writeFails == {} && Repairs(s, io.mint("p"), next)
    ensures Cycle(s, io, Second(), PAIR) == Third(io.mint("p"), next)
  {
    hide Given, Repairs, ProcessPath, Cycle, Pruned;
    var third := Third(io.mint("p"), next);
    PairPruned(io.mint("p"), next);
    RepairedLate(s, io, next);
    OtherUnread(s, io, io.mint("p"), next);
    TwoVisits(s, io, Second(), third, third);
  }

  lemma CalmAll(s: Settings, book: Book, listing: seq<string>, io1: Io, io2: Io, io3: Io)
    requires LeftAlone(s, book, listing, [io1, io2, io3])
    ensures io1.readFails == io2.readFails == io3.readFails == {}
    ensures io1.writeFails == io2.writeFails == io3.writeFails == {}
    ensures FreshMints(s, io2, Cycle(s, io1, book, listing), listing)
  {
    hide FreshMints, Cycle;
    var ios := [io1, io2, io3];
    assert ios[0] == io1 && ios[1] == io2 && ios[2] == io3;
    assert ios[..1] == [io1] && [io1][..0] == [];
    assert Cycles(s, book, listing, []) == book;
    assert Cycles(s, book, listing, ios[..1]) == Cycle(s, io1, book, listing);
  }

  lemma MintedAnew(s: Settings, io: Io, mint: string)
    requires FreshMints(s, io, Second(), PAIR) && mint == io.mint("p")
    ensures mint != "A"
  {
    assert PAIR[0] == "p" && "p" in PAIR;
    assert Second().hashes["q"].id == "A" && Booked(Second().hashes, "A");
  }

  lemma FirstReported(s: Settings, io: Io, book: Book)
    requires "p" in book.files && Pruned(book, PAIR) == book && OutcomeAt(s, io, book, "p").changed
    ensures "p" in CycleReport(s, io, book, PAIR).changed
  {
    hide OutcomeAt, Pruned, WrittenPaths;
    assert PAIR[..0] == [] && Scanned(s, io, book, []) == book && PAIR[0] == "p";
    assert ReportedChanged(s, io, book, PAIR, 0);
  }
}
