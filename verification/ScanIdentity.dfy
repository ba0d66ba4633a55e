/** Identifiers stay unique in the scanner's bookkeeping, over any run of cycles, any
    outside edits and any failures; so the published index is exact. */
module ScanIdentity {
  import opened Records
  import opened VaultScan
  import opened PathIndex
  import Writers

  /** No two paths are booked under one identifier. */
  predicate Unique(hashes: map<string, Entry>) {
    forall p, q :: p in hashes && q in hashes && p != q && hashes[p].id != "" ==> hashes[p].id != hashes[q].id
  }

  predicate Booked(hashes: map<string, Entry>, id: string) {
    exists p :: p in hashes && hashes[p].id == id
  }

  predicate Named(s: Settings, files: map<string, string>, id: string) {
    exists p :: p in files && NamesId(s, files[p], id)
  }

  predicate NamesId(s: Settings, text: string, id: string) {
    s.codec.view(text).Some? && IdentifierOf(s.codec.view(text).value) == Some(id)
  }

  /** Minted identifiers are new: booked nowhere, in no file, and minted only once. */
  predicate FreshMints(s: Settings, io: Io, book: Book, listing: seq<string>) {
    forall p :: p in listing ==>
      && io.mint(p) != "" && !Booked(book.hashes, io.mint(p)) && !Named(s, book.files, io.mint(p))
      && forall q :: q in listing && q != p ==> io.mint(q) != io.mint(p)
  }

  // ---------------------------------------------------------------- one path

  /** The identifier an outcome books: none, the old one, the minted one, or the one the
      file names and no other path holds. */
  lemma OutcomeIdentifier(s: Settings, io: Io, path: string, entry: Option<Entry>, text: string, unique: bool)
    ensures var o := Process(s, io, path, entry, text, unique);
            || o.entry == entry
            || (o.entry.Some? && (o.entry.value.id == "" || o.entry.value.id == io.mint(path)
                                  || (unique && NamesId(s, text, o.entry.value.id))))
  {
  }

  lemma ProcessKeepsUnique(s: Settings, io: Io, book: Book, path: string)
    requires Unique(book.hashes) && !Booked(book.hashes, io.mint(path))
    ensures Unique(ProcessPath(s, io, book, path).hashes)
  {
    hide Process;
    if path in book.files {
      var text := book.files[path];
      OutcomeIdentifier(s, io, path, EntryOf(book.hashes, path), text, UniqueFor(s, book.hashes, path, text));
    }
  }

  // ---------------------------------------------------------------- one scan

  /** Where an identifier booked during a scan can come from. */
  predicate Origin(s: Settings, io: Io, book: Book, seen: seq<string>, id: string) {
    id == "" || Booked(book.hashes, id) || Named(s, book.files, id) || exists p :: p in seen && io.mint(p) == id
  }

  lemma {:induction false} ScanOrigins(s: Settings, io: Io, book: Book, listing: seq<string>, path: string)
    requires NoRepeats(listing) && path in Scanned(s, io, book, listing).hashes
    ensures Origin(s, io, book, listing, Scanned(s, io, book, listing).hashes[path].id)
  {
    hide Process, UniqueFor;
    if listing == [] {
      assert Booked(book.hashes, book.hashes[path].id);
    } else {
      var init, last := listing[..|listing| - 1], listing[|listing| - 1];
      var b := Scanned(s, io, book, init);
      assert last !in init;
      if path == last && last in b.files {
        ScanFrame(s, io, book, init, last);
        OutcomeIdentifier(s, io, last, EntryOf(b.hashes, last), b.files[last], UniqueFor(s, b.hashes, last, b.files[last]));
        LastOrigin(s, io, book, init, last);
      } else {
        ScanOrigins(s, io, book, init, path);
        assert forall p :: p in init ==> p in listing;
      }
    }
  }

  lemma LastOrigin(s: Settings, io: Io, book: Book, init: seq<string>, last: string)
    requires last in book.files
    ensures forall id :: NamesId(s, book.files[last], id) ==> Named(s, book.files, id)
    ensures Origin(s, io, book, init + [last], io.mint(last))
    ensures last in book.hashes ==> Booked(book.hashes, book.hashes[last].id)
  {
    assert last in init + [last];
  }

  lemma {:induction false} ScanKeepsUnique(s: Settings, io: Io, book: Book, all: seq<string>, listing: seq<string>)
    requires Unique(book.hashes) && NoRepeats(all) && FreshMints(s, io, book, all) && listing <= all
    ensures Unique(Scanned(s, io, book, listing).hashes)
  {
    hide ProcessPath, Unique, Origin;
    if listing != [] {
      var init, last := listing[..|listing| - 1], listing[|listing| - 1];
      ScanKeepsUnique(s, io, book, all, init);
      MintStaysFresh(s, io, book, all, init, last);
      ProcessKeepsUnique(s, io, Scanned(s, io, book, init), last);
    }
  }

  lemma MintStaysFresh(s: Settings, io: Io, book: Book, all: seq<string>, init: seq<string>, last: string)
    requires NoRepeats(all) && FreshMints(s, io, book, all) && init + [last] <= all
    ensures !Booked(Scanned(s, io, book, init).hashes, io.mint(last))
  {
    var b := Scanned(s, io, book, init);
    assert all[|init|] == last && init == all[..|init|] && last !in init;
    assert forall p :: p in init ==> p in all;
    forall p | p in b.hashes ensures b.hashes[p].id != io.mint(last) {
      ScanOrigins(s, io, book, init, p);
    }
  }

  // ---------------------------------------------------------------- one cycle

  lemma SweptIdentifiers(s: Settings, io: Io, book: Book, path: string)
    requires path in book.hashes
    ensures path in Swept(s, io, book).hashes && Swept(s, io, book).hashes[path].id == book.hashes[path].id
  {
    hide Writers.Sweepable, Writers.SweepWrite;
  }

  lemma CycleKeepsUnique(s: Settings, io: Io, book: Book, listing: seq<string>)
    requires Unique(book.hashes) && NoRepeats(listing) && FreshMints(s, io, book, listing)
    ensures Unique(Cycle(s, io, book, listing).hashes)
  {
    hide Scanned, Swept;
    var pruned := Pruned(book, listing);
    assert FreshMints(s, io, pruned, listing) by {
      forall id | Booked(pruned.hashes, id) ensures Booked(book.hashes, id) {
        var p :| p in pruned.hashes && pruned.hashes[p].id == id;
        assert book.hashes[p].id == id;
      }
    }
    ScanKeepsUnique(s, io, pruned, listing, listing);
    var scanned := Scanned(s, io, pruned, listing);
    forall p | p in Swept(s, io, scanned).hashes
      ensures p in scanned.hashes && Swept(s, io, scanned).hashes[p].id == scanned.hashes[p].id
    {
      SweptDomain(s, io, scanned);
      SweptIdentifiers(s, io, scanned, p);
    }
  }

  lemma SweptDomain(s: Settings, io: Io, book: Book)
    ensures Swept(s, io, book).hashes.Keys == book.hashes.Keys && Swept(s, io, book).files.Keys == book.files.Keys
  {
  }

  /** An identifier booked to a path that still carries it is never minted anew: the
      file is not repaired and stays booked under it. */
  lemma BookedNeverReminted(s: Settings, io: Io, book: Book, listing: seq<string>, n: nat, id: string)
    requires Unique(book.hashes) && NoRepeats(listing) && FreshMints(s, io, book, listing)
    requires n < |listing| && listing[n] in book.files && listing[n] in book.hashes
    requires id != "" && book.hashes[listing[n]].id == id
    requires NamesId(s, book.files[listing[n]], id) && s.codec.isUuid(id)
    ensures listing[n] in Scanned(s, io, book, listing[..n]).files
    ensures var o := ScanOutcome(s, io, book, listing, n);
            o.action != Repairing && o.entry.Some? && o.entry.value.id == id
  {
    hide Scanned;
    var path, init := listing[n], listing[..n];
    assert path !in init && init <= listing;
    ScanFrame(s, io, book, init, path);
    ScanKeepsUnique(s, io, book, listing, init);
    var b := Scanned(s, io, book, init);
    assert EntryOf(b.hashes, path) == Some(book.hashes[path]);
    assert UniqueFor(s, b.hashes, path, b.files[path]);
  }

  // ---------------------------------------------------------------- whole runs

  /** Before a cycle the files may have become anything. */
  datatype Turn = Turn(files: map<string, string>, io: Io, listing: seq<string>)

  function Turned(s: Settings, hashes: map<string, Entry>, t: Turn): map<string, Entry> {
    Cycle(s, t.io, Book(hashes, t.files), t.listing).hashes
  }

  predicate Playable(s: Settings, hashes: map<string, Entry>, turns: seq<Turn>)
    decreases |turns|
  {
    turns == [] ||
    (&& NoRepeats(turns[0].listing)
     && FreshMints(s, turns[0].io, Book(hashes, turns[0].files), turns[0].listing)
     && Playable(s, Turned(s, hashes, turns[0]), turns[1..]))
  }

  function Play(s: Settings, hashes: map<string, Entry>, turns: seq<Turn>): map<string, Entry>
    decreases |turns|
  {
    if turns == [] then hashes else Play(s, Turned(s, hashes, turns[0]), turns[1..])
  }

  lemma {:induction false} UniqueRun(s: Settings, hashes: map<string, Entry>, turns: seq<Turn>)
    requires Unique(hashes) && Playable(s, hashes, turns)
    ensures Unique(Play(s, hashes, turns))
    decreases |turns|
  {
    hide Cycle, Unique, FreshMints;
    if turns != [] {
      CycleKeepsUnique(s, turns[0].io, Book(hashes, turns[0].files), turns[0].listing);
      UniqueRun(s, Turned(s, hashes, turns[0]), turns[1..]);
    }
  }

  // ---------------------------------------------------------------- the published index

  /** publishIndex collects, in some order, the paths booked under each identifier. */
  ghost predicate Published(index: Index, hashes: map<string, Entry>) {
    && (forall id :: NoRepeats(PathsOf(index, id)))
    && (forall id, p :: p in PathsOf(index, id) <==> id != "" && p in hashes && hashes[p].id == id)
  }

  lemma PublishedResolves(index: Index, hashes: map<string, Entry>, id: string)
    requires Published(index, hashes) && Unique(hashes)
    ensures !Resolved(index, id).Duplicate?
    ensures forall p :: Resolved(index, id) == Found(p) <==> id != "" && p in hashes && hashes[p].id == id
  {
    var paths := PathsOf(index, id);
    assert forall i :: 0 <= i < |paths| ==> paths[i] in PathsOf(index, id);
    assert forall i :: 0 <= i < |paths| ==> paths[i] in hashes && hashes[paths[i]].id == id;
    forall p | id != "" && p in hashes && hashes[p].id == id ensures p in paths && paths != [] {
      assert p in PathsOf(index, id);
    }
  }

  /** Over any run of cycles, the index published after the last one is exact: it never
      reports a duplicate, and resolves an identifier to a path exactly when the
      bookkeeping holds that path under it. */
  lemma IndexAgreement(s: Settings, turns: seq<Turn>, index: Index, id: string)
    requires Playable(s, map[], turns) && Published(index, Play(s, map[], turns))
    ensures !Resolved(index, id).Duplicate?
    ensures forall p :: Resolved(index, id) == Found(p)
              <==> id != "" && p in Play(s, map[], turns) && Play(s, map[], turns)[p].id == id
  {
    hide Published;
    UniqueRun(s, map[], turns);
    PublishedResolves(index, Play(s, map[], turns), id);
  }
}
