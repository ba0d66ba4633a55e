/** How much noise a scanner can make when it is left alone, whatever its settings and
    files: injection may be off, files may have duplicate keys or nothing to inject
    behind. Every file is written or reported in at most three cycles. */
module ScanBound {
  import opened Records
  import opened VaultScan
  import opened ScanIdentity
  import opened ScanQuiescence
  import Writers

  /** How often a file can still be written or reported: a settled file at most once, a
      waiting one once more on being settled, and once more on being swept before. */
  function Rank(s: Settings, e: Option<Entry>, t: string): (r: nat)
    ensures r <= 3
  {
    if AtMost(1, s, e, t) then 0
    else if AtMost(2, s, e, t) then 1
    else if !Candidate(e) then 2
    else 3
  }

  /** The file is reported changed, or written by the scan or by the sweep. */
  predicate Noisy(s: Settings, io: Io, book: Book, listing: seq<string>, n: nat)
    requires n < |listing|
  {
    || ReportedChanged(s, io, Pruned(book, listing), listing, n)
    || WrittenInScan(s, io, Pruned(book, listing), listing, n)
    || WrittenInSweep(s, io, Pruned(book, listing), listing, listing[n])
  }

  function RankIn(s: Settings, book: Book, p: string): nat {
    if p in book.files then Rank(s, EntryOf(book.hashes, p), book.files[p]) else 0
  }

  // ---------------------------------------------------------------- one file, one cycle

  /** A sweep that writes nothing changes nothing; one that writes ends the candidacy. */
  lemma SweepEndsCandidacy(s: Settings, io: Io, path: string, e: Option<Entry>, t: string)
    ensures var w := SweepFile(s, io, path, e, t);
            && (w.action == Nothing ==> w.entry == e && w.text == t)
            && (w.action != Nothing ==> Candidate(e) && !Candidate(w.entry))
  {
    hide Writers.Sweepable, Writers.SweepWrite;
  }

  /** A waiting file, one that is at no level yet. */
  lemma WaitingFalls(s: Settings, io: Io, path: string, listing: seq<string>, e: Option<Entry>, t: string, unique: bool)
    requires Lawful(s) && Calm(s, io, listing) && path in listing && !AtMost(2, s, e, t)
    requires e.Some? ==> EntryOk(s, e.value)
    ensures var o := Process(s, io, path, e, t, unique);
            var w := SweepFile(s, io, path, o.entry, o.text);
            Rank(s, w.entry, w.text) + (if o.changed || o.action != Nothing || w.action != Nothing then 1 else 0)
            <= Rank(s, e, t)
  {
    LevelUp(s, e, t);
    ProcessAny(s, io, path, listing, e, t, unique);
    var o := Process(s, io, path, e, t, unique);
    hide Process, SweepFile, AtMost, Processed, Lawful, Settles, Candidate;
    if Processed(s, o.entry, o.text) {
      SweepProcessed(s, io, path, o.entry, o.text);
    } else {
      SweepEndsCandidacy(s, io, path, e, t);
    }
  }

  lemma RankFalls(s: Settings, io: Io, book: Book, listing: seq<string>, n: nat)
    requires Ready(s, io, book, listing) && n < |listing|
    ensures RankIn(s, Cycle(s, io, book, listing), listing[n]) + (if Noisy(s, io, book, listing, n) then 1 else 0)
         <= RankIn(s, book, listing[n])
  {
    hide Process, SweepFile, Cycle, Scanned, Lawful, Pruned, AtMost;
    var p := listing[n];
    assert p in listing && p in book.files;
    var e, t := EntryOf(book.hashes, p), book.files[p];
    if AtMost(1, s, e, t) {
      LaterCycle(s, io, book, listing, 1, n);
    } else if AtMost(2, s, e, t) {
      LaterCycle(s, io, book, listing, 2, n);
    } else {
      var unique := FileAfter(s, io, book, listing, n);
      assert e.Some? ==> EntryOk(s, e.value);
      WaitingFalls(s, io, p, listing, e, t, unique);
    }
  }

  // ---------------------------------------------------------------- all files, one cycle

  /** The noise left in the first `k` files. */
  function Potential(s: Settings, book: Book, listing: seq<string>, k: nat): (total: nat)
    requires k <= |listing|
    ensures total <= 3 * k
  {
    if k == 0 then 0 else Potential(s, book, listing, k - 1) + RankIn(s, book, listing[k - 1])
  }

  predicate AnyNoisy(s: Settings, io: Io, book: Book, listing: seq<string>, k: nat)
    requires k <= |listing|
  {
    exists n :: 0 <= n < k && Noisy(s, io, book, listing, n)
  }

  lemma {:induction false} PotentialFalls(s: Settings, io: Io, book: Book, listing: seq<string>, k: nat)
    requires Ready(s, io, book, listing) && k <= |listing|
    ensures Potential(s, Cycle(s, io, book, listing), listing, k) + (if AnyNoisy(s, io, book, listing, k) then 1 else 0)
         <= Potential(s, book, listing, k)
  {
    hide Ready, Noisy, Cycle, RankIn;
    if k > 0 {
      PotentialFalls(s, io, book, listing, k - 1);
      RankFalls(s, io, book, listing, k - 1);
    }
  }

  /** A report without deletions is silent unless some file is noisy. */
  lemma QuietFilesReportNothing(s: Settings, io: Io, book: Book, listing: seq<string>)
    requires Lists(listing, book.files) && book.hashes.Keys <= (set p | p in listing)
    requires !AnyNoisy(s, io, book, listing, |listing|)
    ensures CycleReport(s, io, book, listing) == SILENCE
  {
    var pruned := Pruned(book, listing);
    hide ReportedChanged, WrittenInScan, WrittenInSweep;
    forall n | 0 <= n < |listing|
      ensures !ReportedChanged(s, io, pruned, listing, n) && !WrittenInScan(s, io, pruned, listing, n)
    {
      assert !Noisy(s, io, book, listing, n);
    }
    assert ChangedPaths(s, io, pruned, listing, |listing|) == {} && WrittenPaths(s, io, pruned, listing, |listing|) == {};
    forall p | p in pruned.files ensures !WrittenInSweep(s, io, pruned, listing, p) {
      var n :| 0 <= n < |listing| && listing[n] == p;
      assert !Noisy(s, io, book, listing, n);
    }
    assert (set p | p in pruned.files && WrittenInSweep(s, io, pruned, listing, p)) == {};
    assert Deleted(book, listing) == {};
  }

  // ---------------------------------------------------------------- whole runs

  /** The cycles of a run that report anything. */
  function NoisyCycles(s: Settings, book: Book, listing: seq<string>, ios: seq<Io>): nat {
    if ios == [] then 0
    else
      var init, last := ios[..|ios| - 1], ios[|ios| - 1];
      NoisyCycles(s, book, listing, init)
      + if CycleReport(s, last, Cycles(s, book, listing, init), listing) == SILENCE then 0 else 1
  }

  /** The cycles of a run that write or report the n-th file. */
  function NoisyCyclesOf(s: Settings, book: Book, listing: seq<string>, ios: seq<Io>, n: nat): nat
    requires n < |listing|
  {
    if ios == [] then 0
    else
      var init, last := ios[..|ios| - 1], ios[|ios| - 1];
      NoisyCyclesOf(s, book, listing, init, n)
      + if Noisy(s, last, Cycles(s, book, listing, init), listing, n) then 1 else 0
  }

  lemma {:induction false} FileRun(s: Settings, book: Book, listing: seq<string>, ios: seq<Io>, n: nat)
    requires Reachable(s, book, listing) && LeftAlone(s, book, listing, ios) && n < |listing|
    ensures NoisyCyclesOf(s, book, listing, ios, n) + RankIn(s, Cycles(s, book, listing, ios), listing[n])
         <= RankIn(s, book, listing[n])
  {
    hide Reachable, LeftAlone, Ready, Noisy, Cycle, RankIn;
    if ios != [] {
      var init, last := ios[..|ios| - 1], ios[|ios| - 1];
      LeftAloneBefore(s, book, listing, ios);
      NextReady(s, book, listing, ios);
      FileRun(s, book, listing, init, n);
      RankFalls(s, last, Cycles(s, book, listing, init), listing, n);
    }
  }

  /** Left alone, a file is written or reported in at most three cycles. */
  lemma FileIsNoisyThrice(s: Settings, book: Book, listing: seq<string>, ios: seq<Io>, n: nat)
    requires Reachable(s, book, listing) && LeftAlone(s, book, listing, ios) && n < |listing|
    ensures NoisyCyclesOf(s, book, listing, ios, n) <= 3
  {
    hide Reachable, LeftAlone, NoisyCyclesOf, Cycles;
    FileRun(s, book, listing, ios, n);
  }

  lemma {:induction false} NoisyRun(s: Settings, book: Book, listing: seq<string>, ios: seq<Io>)
    requires Reachable(s, book, listing) && LeftAlone(s, book, listing, ios)
    ensures NoisyCycles(s, book, listing, ios) + Potential(s, Cycles(s, book, listing, ios), listing, |listing|)
         <= Potential(s, book, listing, |listing|) + 1
    ensures ios == [] ==> NoisyCycles(s, book, listing, ios) == 0
  {
    hide Reachable, LeftAlone, Ready, AnyNoisy, Cycle, Potential, CycleReport;
    if ios != [] {
      var init, last := ios[..|ios| - 1], ios[|ios| - 1];
      var b := Cycles(s, book, listing, init);
      LeftAloneBefore(s, book, listing, ios);
      NextReady(s, book, listing, ios);
      RunReady(s, book, listing, init);
      NoisyRun(s, book, listing, init);
      PotentialFalls(s, last, b, listing, |listing|);
      if init != [] && !AnyNoisy(s, last, b, listing, |listing|) {
        QuietFilesReportNothing(s, last, b, listing);
      }
    }
  }

  /** Left alone, with any settings and any files, at most three cycles per file report
      anything, and one more in which vanished files are noticed. */
  lemma ReportsAreFew(s: Settings, book: Book, listing: seq<string>, ios: seq<Io>)
    requires Reachable(s, book, listing) && LeftAlone(s, book, listing, ios)
    ensures NoisyCycles(s, book, listing, ios) <= 3 * |listing| + 1
  {
    hide Reachable, LeftAlone, NoisyCycles, Cycles;
    NoisyRun(s, book, listing, ios);
  }
}
