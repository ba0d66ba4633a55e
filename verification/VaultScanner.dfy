/** The scanner object: bookkeeping and index as fields, updated in place by loops over
    the listing and over the bookkeeping. Each method is tied to the cycle it is a part of. */
module VaultScanner {
  import opened Records
  import opened VaultScan
  import opened ScanIdentity
  import opened PathIndex

  class VaultScanner {
    const settings: Settings
    const resolver: TaskIndex
    var hashes: map<string, Entry>
    /** The vault as the file server holds it. */
    var files: map<string, string>

    function Books(): Book
      reads this
    {
      Book(hashes, files)
    }

    constructor (settings: Settings, files: map<string, string>)
      ensures this.settings == settings && Books() == Book(map[], files)
      ensures fresh(resolver) && resolver.index == map[]
    {
      this.settings := settings;
      this.resolver := new TaskIndex();
      this.hashes := map[];
      this.files := files;
    }

    method IsIdentifierUnique(id: string, path: string) returns (r: bool)
      ensures r <==> forall p :: p in hashes && p != path ==> hashes[p].id != id
    {
      var keys := hashes.Keys;
      while keys != {}
        invariant keys <= hashes.Keys
        invariant forall p :: p in hashes && p !in keys && p != path ==> hashes[p].id != id
        decreases keys
      {
        var p :| p in keys;
        if p != path && hashes[p].id == id {
          return false;
        }
        keys := keys - {p};
      }
      r := true;
    }

    method CollectDeleted(listing: seq<string>) returns (deleted: set<string>)
      modifies this`hashes
      ensures Books() == Pruned(old(Books()), listing)
      ensures deleted == Deleted(old(Books()), listing)
    {
      deleted := {};
      ghost var start := hashes;
      var keys := hashes.Keys;
      while keys != {}
        invariant keys <= start.Keys
        invariant forall p :: p in hashes <==> p in start && (p in keys || p in listing)
        invariant forall p :: p in hashes ==> hashes[p] == start[p]
        invariant forall id :: id in deleted <==>
          exists p :: p in start && p !in keys && p !in listing && start[p].id == id && id != ""
        decreases keys
      {
        var p :| p in keys;
        if p !in listing {
          if hashes[p].id != "" {
            deleted := deleted + {hashes[p].id};
          }
          hashes := hashes - {p};
        }
        keys := keys - {p};
      }
      assert deleted == Deleted(Book(start, files), listing);
    }

    /** processFile */
    method ProcessFile(io: Io, path: string) returns (changed: bool, action: Action, failed: bool)
      modifies this
      ensures Books() == ProcessPath(settings, io, old(Books()), path)
      ensures var o := VisitOutcome(settings, io, old(Books()), path);
              changed == o.changed && action == o.action && failed == o.failed
    {
      changed, action, failed := false, Nothing, false;
      if path !in files || path in io.readFails {
        assert path in files ==> files[path := files[path]] == files;
        assert path in hashes ==> hashes[path := hashes[path]] == hashes;
        return;
      }
      var text, entry := files[path], EntryOf(hashes, path);
      var o := Outcome(entry, text, false, Nothing, false);
      var fm := settings.codec.view(text);
      if fm.Some? && !(entry.Some? && entry.value.hash == Some(text)) {
        var id := IdentifierOf(fm.value);
        var unique := true;
        if id.Some? {
          unique := IsIdentifierUnique(id.value, path);
        }
        assert unique == UniqueFor(settings, hashes, path, text);
        if Identified(settings, fm.value) && unique {
          o := Accept(settings, io, path, entry, text, fm.value);
        } else if settings.autoInject {
          if TaskIdentifier !in fm.value {
            o := Inject(settings, io, path, entry, text, text, AssigneeOf(fm.value), "");
          } else {
            var previous := if Identified(settings, fm.value) then "" else Predecessor(fm.value);
            o := Inject(settings, io, path, entry, text, settings.codec.strip(text), AssigneeOf(fm.value), previous);
          }
        }
      }
      if o.entry.Some? {
        hashes := hashes[path := o.entry.value];
      }
      files := files[path := o.text];
      changed, action, failed := o.changed, o.action, o.failed;
    }

    /** escalateCappedIdleTasks: the candidates are visited in no particular order. */
    method EscalateCappedIdleTasks(io: Io) returns (written: set<string>, failed: bool)
      modifies this
      ensures Books() == Swept(settings, io, old(Books()))
      ensures written == set p | p in old(files) && SweepAt(settings, io, old(Books()), p).action != Nothing
      ensures failed <==> exists p :: p in old(files) && SweepAt(settings, io, old(Books()), p).failed
    {
      written, failed := {}, false;
      ghost var start := Books();
      SweptAll(settings, io, start);
      SweepSkips(settings, io, start);
      hide SweepFile, SweptOn, Swept;
      var keys := hashes.Keys;
      ghost var done := {};
      while keys != {}
        invariant keys + done == start.hashes.Keys && keys !! done
        invariant Books() == SweptOn(settings, io, start, done)
        invariant written == set p | p in start.files && p in done && SweepAt(settings, io, start, p).action != Nothing
        invariant failed <==> exists p :: p in start.files && p in done && SweepAt(settings, io, start, p).failed
        decreases keys
      {
        var p :| p in keys;
        SweptOneMore(settings, io, start, done, p);
        if p in files {
          var o := SweepFile(settings, io, p, EntryOf(hashes, p), files[p]);
          if o.entry.Some? {
            hashes := hashes[p := o.entry.value];
          }
          files := files[p := o.text];
          if o.action != Nothing {
            written := written + {p};
          }
          failed := failed || o.failed;
        }
        keys := keys - {p};
        done := done + {p};
      }
      assert done == start.hashes.Keys;
    }

    /** publishIndex: rebuilt wholesale from the bookkeeping. */
    method PublishIndex()
      modifies resolver
      ensures Published(resolver.index, hashes)
    {
      var index: Index := map[];
      var keys := hashes.Keys;
      while keys != {}
        invariant keys <= hashes.Keys
        invariant forall id :: NoRepeats(PathsOf(index, id))
        invariant forall id, p :: p in PathsOf(index, id) <==>
          id != "" && p in hashes && p !in keys && hashes[p].id == id
        decreases keys
      {
        ghost var known, left := index, keys;
        var p :| p in keys;
        var id := hashes[p].id;
        if id != "" {
          assert p !in PathsOf(index, id);
          PathAdded(index, id, p);
          index := index[id := PathsOf(index, id) + [p]];
        }
        keys := keys - {p};
        forall i, q ensures q in PathsOf(index, i) <==> i != "" && q in hashes && q !in keys && hashes[q].id == i {
          assert q in PathsOf(known, i) <==> i != "" && q in hashes && q !in left && hashes[q].id == i;
        }
      }
      resolver.index := index;
    }

    /** scanFiles: one cycle over a listing without repeats. */
    method ScanFiles(io: Io, listing: seq<string>)
      returns (changed: set<string>, deleted: set<string>, written: set<string>, failed: bool)
      modifies this, resolver
      ensures Books() == Cycle(settings, io, old(Books()), listing)
      ensures Report(changed, deleted, written) == CycleReport(settings, io, old(Books()), listing)
      ensures failed <==> CycleFailed(settings, io, old(Books()), listing)
      ensures Published(resolver.index, hashes)
    {
      deleted := CollectDeleted(listing);
      ghost var start := Books();
      changed, written, failed := ProcessAll(io, listing);
      hide Scanned, Swept, SweepAt, ChangedPaths, WrittenPaths, AnyFailed;
      ScannedFiles(settings, io, start, listing);
      var swept, sweepFailed := EscalateCappedIdleTasks(io);
      assert swept == set p | p in start.files && WrittenInSweep(settings, io, start, listing, p);
      assert sweepFailed <==> exists p :: p in start.files && FailedInSweep(settings, io, start, listing, p);
      written := written + swept;
      failed := failed || sweepFailed;
      PublishIndex();
    }

    method ProcessAll(io: Io, listing: seq<string>) returns (changed: set<string>, written: set<string>, failed: bool)
      modifies this
      ensures Books() == Scanned(settings, io, old(Books()), listing)
      ensures changed == ChangedPaths(settings, io, old(Books()), listing, |listing|)
      ensures written == WrittenPaths(settings, io, old(Books()), listing, |listing|)
      ensures failed <==> AnyFailed(settings, io, old(Books()), listing, |listing|)
    {
      changed, written, failed := {}, {}, false;
      ghost var start := Books();
      NothingReported(settings, io, start, listing);
      hide *;
      for n := 0 to |listing|
        invariant Books() == Scanned(settings, io, start, listing[..n])
        invariant changed == ChangedPaths(settings, io, start, listing, n)
        invariant written == WrittenPaths(settings, io, start, listing, n)
        invariant failed <==> AnyFailed(settings, io, start, listing, n)
      {
        ScannedOneMore(settings, io, start, listing, n);
        ReportOneMore(settings, io, start, listing, n);
        var isChanged, action, isFailed := ProcessFile(io, listing[n]);
        if isChanged {
          changed := changed + {listing[n]};
        }
        if action != Nothing {
          written := written + {listing[n]};
        }
        failed := failed || isFailed;
      }
      assert listing[..|listing|] == listing;
    }
  }

  lemma NothingReported(s: Settings, io: Io, book: Book, listing: seq<string>)
    ensures Scanned(s, io, book, listing[..0]) == book
    ensures ChangedPaths(s, io, book, listing, 0) == {} && WrittenPaths(s, io, book, listing, 0) == {}
    ensures !AnyFailed(s, io, book, listing, 0)
  {
  }

  /** Only booked paths are candidates. */
  lemma SweepSkips(s: Settings, io: Io, book: Book)
    ensures forall p :: p in book.files && p !in book.hashes ==>
              SweepAt(s, io, book, p).action == Nothing && !SweepAt(s, io, book, p).failed
  {
  }

  lemma PathAdded(index: Index, id: string, p: string)
    requires p !in PathsOf(index, id)
    ensures var next := index[id := PathsOf(index, id) + [p]];
            && (forall i :: PathsOf(next, i) == if i == id then PathsOf(index, id) + [p] else PathsOf(index, i))
            && (NoRepeats(PathsOf(index, id)) ==> NoRepeats(PathsOf(next, id)))
  {
  }
}
