/** The identifier-to-path index (Resolve, Record, RecordDuplicate), the lookup that
    consults it before walking the vault (FindTaskFilePath), and what a create records
    in it (recordCreatedTaskPath). The index may be arbitrarily stale. */
module PathIndex {
  import opened Records

  /** Every path known to carry an identifier. */
  type Index = map<string, seq<string>>

  datatype Resolution = Missing | Found(path: string) | Duplicate(first: string, second: string)

  function PathsOf(index: Index, id: string): seq<string> {
    if id in index then index[id] else []
  }

  function Resolved(index: Index, id: string): Resolution {
    var paths := PathsOf(index, id);
    if id == "" || |paths| == 0 then Missing
    else if |paths| == 1 then Found(paths[0])
    else Duplicate(paths[0], paths[1])
  }

  function Recorded(index: Index, id: string, path: string): Index {
    if id == "" || path == "" || |PathsOf(index, id)| >= 2 then index else index[id := [path]]
  }

  function RecordedBeside(index: Index, id: string, path: string): Index {
    if id == "" || path == "" || path in PathsOf(index, id) then index
    else index[id := PathsOf(index, id) + [path]]
  }

  class TaskIndex {
    var index: Index

    constructor ()
      ensures index == map[]
    {
      index := map[];
    }

    method Resolve(id: string) returns (r: Resolution)
      ensures r == Resolved(index, id)
    {
      if id == "" {
        return Missing;
      }
      var paths := if id in index then index[id] else [];
      if |paths| == 0 {
        r := Missing;
      } else if |paths| == 1 {
        r := Found(paths[0]);
      } else {
        r := Duplicate(paths[0], paths[1]);
      }
    }

    method Record(id: string, path: string)
      modifies this
      ensures index == Recorded(old(index), id, path)
    {
      if id == "" || path == "" {
        return;
      }
      if id in index && |index[id]| >= 2 {
        return;
      }
      index := index[id := [path]];
    }

    method RecordDuplicate(id: string, path: string)
      modifies this
      ensures index == RecordedBeside(old(index), id, path)
    {
      if id == "" || path == "" {
        return;
      }
      var known := if id in index then index[id] else [];
      if path in known {
        return;
      }
      index := index[id := known + [path]];
    }
  }

  // ---------------------------------------------------------------- files

  /** What reading a path yields: nothing there, a failed read, text whose frontmatter
      cannot be parsed, or a document. */
  datatype View = Absent | Unreadable | Malformed | Document(fm: Frontmatter)

  type Vault = map<string, View>

  function At(vault: Vault, path: string): View {
    if path in vault then vault[path] else Absent
  }

  /** The file declares the identifier as a string. */
  predicate Carries(vault: Vault, path: string, id: string) {
    At(vault, path).Document? && Get(At(vault, path).fm, TaskIdentifier) == Some(Str(id))
  }

  /** Decoding a scalar into a text field; composite values do not decode. */
  datatype Decoder = Decoder(text: Value -> Option<string>) {
    ghost predicate Lawful() { forall s :: text(Str(s)) == Some(s) }
  }

  function TextOf(dec: Decoder, fm: Frontmatter, k: Field): Option<string> {
    if k in fm then dec.text(fm[k]) else Some("")
  }

  datatype Match = NoMatch | ByCurrent | ByPrevious

  /** The walk decodes both identifier keys as text before it compares them. */
  function MatchOf(dec: Decoder, vault: Vault, path: string, id: string): Match {
    match At(vault, path)
    case Document(fm) =>
      var current, previous := TextOf(dec, fm, TaskIdentifier), TextOf(dec, fm, TaskIdentifierPrevious);
      if current.None? || previous.None? then NoMatch
      else if current.value == id then ByCurrent
      else if previous.value != "" && previous.value == id then ByPrevious
      else NoMatch
    case _ => NoMatch
  }

  // ---------------------------------------------------------------- the lookup

  datatype Lookup =
    | NotFound
    | Hit(path: string, fm: Frontmatter)
    | Ambiguous(first: string, second: string)

  /** The listed paths whose file matches. */
  function Matches(dec: Decoder, vault: Vault, listing: seq<string>, id: string): (ms: seq<string>)
    ensures forall p :: p in ms <==> p in listing && MatchOf(dec, vault, p, id) != NoMatch
  {
    if listing == [] then []
    else
      var before := Matches(dec, vault, listing[..|listing| - 1], id);
      var last := listing[|listing| - 1];
      if MatchOf(dec, vault, last, id) != NoMatch then before + [last] else before
  }

  function Walked(dec: Decoder, vault: Vault, listing: seq<string>, id: string): Lookup {
    var ms := Matches(dec, vault, listing, id);
    if |ms| == 0 then NotFound
    else if |ms| == 1 then assert ms[0] in ms; Hit(ms[0], At(vault, ms[0]).fm)
    else Ambiguous(ms[0], ms[1])
  }

  function Lookedup(dec: Decoder, vault: Vault, listing: seq<string>, id: string, index: Index): Lookup {
    match Resolved(index, id)
    case Duplicate(a, b) => Ambiguous(a, b)
    case Found(p) =>
      if Carries(vault, p, id) then Hit(p, At(vault, p).fm) else Walked(dec, vault, listing, id)
    case Missing => Walked(dec, vault, listing, id)
  }

  /** What a lookup leaves in the index: a unique walk match through the current key. */
  function IndexAfter(dec: Decoder, vault: Vault, listing: seq<string>, id: string, index: Index): Index {
    var walked := Walked(dec, vault, listing, id);
    match Resolved(index, id)
    case Duplicate(_, _) => index
    case Found(p) => if Carries(vault, p, id) then index else AfterWalk(dec, vault, id, index, walked)
    case Missing => AfterWalk(dec, vault, id, index, walked)
  }

  function AfterWalk(dec: Decoder, vault: Vault, id: string, index: Index, walked: Lookup): Index {
    if walked.Hit? && MatchOf(dec, vault, walked.path, id) == ByCurrent then Recorded(index, id, walked.path)
    else index
  }

  method Walk(dec: Decoder, vault: Vault, listing: seq<string>, id: string)
    returns (r: Lookup, viaPrevious: bool)
    ensures r == Walked(dec, vault, listing, id)
    ensures r.Hit? ==> (viaPrevious <==> MatchOf(dec, vault, r.path, id) == ByPrevious)
  {
    r, viaPrevious := NotFound, false;
    assert Walked(dec, vault, listing[..0], id) == NotFound;
    hide MatchOf, Walked;
    for n := 0 to |listing|
      invariant !r.Ambiguous?
      invariant r == Walked(dec, vault, listing[..n], id)
      invariant r.Hit? ==> (viaPrevious <==> MatchOf(dec, vault, r.path, id) == ByPrevious)
    {
      var path := listing[n];
      MatchIsDocument(dec, vault, path, id);
      WalkedOneMore(dec, vault, listing, n, id);
      var how := MatchOf(dec, vault, path, id);
      if how != NoMatch {
        if r.Hit? {
          r := Ambiguous(r.path, path);
          return;
        }
        r, viaPrevious := Hit(path, At(vault, path).fm), how == ByPrevious;
      }
    }
    assert listing[..|listing|] == listing;
  }

  /** A second match decides the walk, whatever is still listed. */
  lemma WalkedOneMore(dec: Decoder, vault: Vault, listing: seq<string>, n: nat, id: string)
    requires n < |listing| && !Walked(dec, vault, listing[..n], id).Ambiguous?
    ensures var so, path := Walked(dec, vault, listing[..n], id), listing[n];
            && (MatchOf(dec, vault, path, id) == NoMatch ==> Walked(dec, vault, listing[..n + 1], id) == so)
            && (MatchOf(dec, vault, path, id) != NoMatch && so.NotFound? ==>
                  At(vault, path).Document? && Walked(dec, vault, listing[..n + 1], id) == Hit(path, At(vault, path).fm))
            && (MatchOf(dec, vault, path, id) != NoMatch && so.Hit? ==>
                  Walked(dec, vault, listing, id) == Ambiguous(so.path, path))
  {
    hide MatchOf;
    MatchesOneMore(dec, vault, listing, n, id);
  }

  lemma MatchIsDocument(dec: Decoder, vault: Vault, path: string, id: string)
    ensures MatchOf(dec, vault, path, id) != NoMatch ==> At(vault, path).Document?
  {
  }

  lemma {:induction false} MatchesGrow(dec: Decoder, vault: Vault, a: seq<string>, b: seq<string>, id: string)
    ensures Matches(dec, vault, a, id) <= Matches(dec, vault, a + b, id)
  {
    hide MatchOf;
    if b == [] {
      assert a + b == a;
    } else {
      assert (a + b)[..|a + b| - 1] == a + b[..|b| - 1];
      MatchesGrow(dec, vault, a, b[..|b| - 1], id);
    }
  }

  lemma MatchesOneMore(dec: Decoder, vault: Vault, listing: seq<string>, n: nat, id: string)
    requires n < |listing|
    ensures Matches(dec, vault, listing[..n + 1], id)
         == Matches(dec, vault, listing[..n], id)
            + (if MatchOf(dec, vault, listing[n], id) != NoMatch then [listing[n]] else [])
    ensures Matches(dec, vault, listing[..n + 1], id) <= Matches(dec, vault, listing, id)
    ensures MatchOf(dec, vault, listing[n], id) != NoMatch ==> At(vault, listing[n]).Document?
  {
    MatchIsDocument(dec, vault, listing[n], id);
    assert listing[..n + 1][..n] == listing[..n];
    assert Matches(dec, vault, listing[..n + 1], id)
        == Matches(dec, vault, listing[..n + 1][..n], id)
           + (if MatchOf(dec, vault, listing[..n + 1][n], id) != NoMatch then [listing[..n + 1][n]] else []) by {
      hide MatchOf;
    }
    hide *;
    MatchesGrow(dec, vault, listing[..n + 1], listing[n + 1..], id);
    assert listing[..n + 1] + listing[n + 1..] == listing;
  }

  /** FindTaskFilePath; a null resolver walks and records nothing. */
  method FindTaskFilePath(dec: Decoder, vault: Vault, listing: seq<string>, id: string, resolver: TaskIndex?)
    returns (r: Lookup)
    modifies resolver
    ensures resolver == null ==> r == Walked(dec, vault, listing, id)
    ensures resolver != null ==> r == Lookedup(dec, vault, listing, id, old(resolver.index))
    ensures resolver != null ==> resolver.index == IndexAfter(dec, vault, listing, id, old(resolver.index))
  {
    if resolver != null {
      var known := resolver.Resolve(id);
      match known {
        case Duplicate(a, b) => return Ambiguous(a, b);
        case Found(p) =>
          if Carries(vault, p, id) {
            return Hit(p, At(vault, p).fm);
          }
        case Missing =>
      }
    }
    var viaPrevious;
    r, viaPrevious := Walk(dec, vault, listing, id);
    if r.Hit? && !viaPrevious && resolver != null {
      assert r.path in Matches(dec, vault, listing, id);
      resolver.Record(id, r.path);
    }
  }

  // ---------------------------------------------------------------- refinement of the walk

  /** However stale the index, a returned path names a file that matches now: it
      carries the identifier, or the walk matched it. */
  lemma LookupIsSound(dec: Decoder, vault: Vault, listing: seq<string>, id: string, index: Index)
    requires Lookedup(dec, vault, listing, id, index).Hit?
    ensures var p := Lookedup(dec, vault, listing, id, index).path;
            Carries(vault, p, id) || (p in listing && MatchOf(dec, vault, p, id) != NoMatch)
  {
    var ms := Matches(dec, vault, listing, id);
    assert |ms| == 1 ==> ms[0] in ms;
  }

  /** The index leads straight to a file that still carries the identifier. */
  predicate IndexHit(vault: Vault, id: string, index: Index) {
    Resolved(index, id).Found? && Carries(vault, Resolved(index, id).path, id)
  }

  /** With at most one matching file and no reported duplicate, the indexed lookup
      answers as the plain walk does, exactly when an index hit is a listed file whose
      recorded predecessor decodes as text. */
  lemma LookupRefinesWalk(dec: Decoder, vault: Vault, listing: seq<string>, id: string, index: Index)
    requires dec.Lawful() && |Matches(dec, vault, listing, id)| <= 1 && !Resolved(index, id).Duplicate?
    ensures Lookedup(dec, vault, listing, id, index) == Walked(dec, vault, listing, id)
       <==> (IndexHit(vault, id, index) ==>
               var p := Resolved(index, id).path;
               p in listing && TextOf(dec, At(vault, p).fm, TaskIdentifierPrevious).Some?)
  {
    if IndexHit(vault, id, index) {
      var p := Resolved(index, id).path;
      var ms := Matches(dec, vault, listing, id);
      assert At(vault, p).fm[TaskIdentifier] == Str(id);
      assert dec.text(Str(id)) == Some(id);
      assert TextOf(dec, At(vault, p).fm, TaskIdentifier) == Some(id);
      assert |ms| == 1 ==> ms[0] in ms;
    }
  }

  /** An indexed file that is not listed, or whose recorded predecessor is no scalar, is
      found through the index and missed by the walk. */
  lemma LookupDiffers(dec: Decoder, id: string, listing: seq<string>, fm: Frontmatter)
    requires dec.Lawful() && id != "" && Get(fm, TaskIdentifier) == Some(Str(id))
    requires listing == [] || (listing == ["p"] && TextOf(dec, fm, TaskIdentifierPrevious) == None)
    ensures var vault, index: Index := map["p" := Document(fm)], map[id := ["p"]];
            && Lookedup(dec, vault, listing, id, index) == Hit("p", fm)
            && Walked(dec, vault, listing, id) == NotFound
  {
    var vault, index: Index := map["p" := Document(fm)], map[id := ["p"]];
    assert PathsOf(index, id) == ["p"] && Resolved(index, id) == Found("p");
    if listing == ["p"] {
      assert listing[..0] == [] && listing[0] == "p";
      assert MatchOf(dec, vault, "p", id) == NoMatch;
      assert Matches(dec, vault, [], id) == [];
    }
  }

  /** A lookup records at most the one path a unique match through the current
      identifier gave; a predecessor match is never recorded. */
  lemma LookupRecords(dec: Decoder, vault: Vault, listing: seq<string>, id: string, index: Index, other: string)
    ensures var after := IndexAfter(dec, vault, listing, id, index);
            && (other != id ==> PathsOf(after, other) == PathsOf(index, other))
            && (PathsOf(after, id) != PathsOf(index, id) ==>
                  |PathsOf(after, id)| == 1 && MatchOf(dec, vault, PathsOf(after, id)[0], id) == ByCurrent)
  {
  }

  // ---------------------------------------------------------------- after a create

  datatype Presence = Present | Gone | Unknown

  /** identifierPresence: a missing file definitely does not carry the identifier; a
      failed read or parse leaves the question open. */
  function PresenceOf(vault: Vault, path: string, id: string): Presence {
    match At(vault, path)
    case Absent => Gone
    case Unreadable => Unknown
    case Malformed => Unknown
    case Document(fm) => if StringOf(fm, TaskIdentifier) == id then Present else Gone
  }

  function AfterCreate(vault: Vault, clean: string -> string, id: string, path: string, index: Index): Index {
    match Resolved(index, id)
    case Duplicate(_, _) => index
    case Missing => Recorded(index, id, path)
    case Found(known) =>
      if clean(known) == clean(path) then index
      else
        match PresenceOf(vault, known, id)
        case Unknown => index
        case Present => RecordedBeside(index, id, path)
        case Gone => Recorded(index, id, path)
  }

  method RecordCreatedTaskPath(vault: Vault, clean: string -> string, resolver: TaskIndex?, id: string, path: string)
    modifies resolver
    ensures resolver != null ==> resolver.index == AfterCreate(vault, clean, id, path, old(resolver.index))
  {
    if resolver == null {
      return;
    }
    var known := resolver.Resolve(id);
    match known {
      case Duplicate(_, _) =>
      case Missing => resolver.Record(id, path);
      case Found(knownPath) =>
        if clean(knownPath) != clean(path) {
          match PresenceOf(vault, knownPath, id) {
            case Unknown =>
            case Present => resolver.RecordDuplicate(id, path);
            case Gone => resolver.Record(id, path);
          }
        }
    }
  }

  /** Writes go to that file, or are refused loudly. */
  predicate Routed(clean: string -> string, path: string, r: Resolution) {
    r.Duplicate? || (r.Found? && clean(r.path) == clean(path))
  }

  /** No silent misroute: after a create the identifier resolves to the created file or
      reports a duplicate, except exactly when the index pointed elsewhere and whether
      that file still carries the identifier could not be told. */
  lemma NoSilentMisroute(vault: Vault, clean: string -> string, id: string, path: string, index: Index)
    requires id != "" && path != ""
    ensures Routed(clean, path, Resolved(AfterCreate(vault, clean, id, path, index), id))
       <==> !(Resolved(index, id).Found? && clean(Resolved(index, id).path) != clean(path)
              && PresenceOf(vault, Resolved(index, id).path, id) == Unknown)
  {
  }

  datatype Op = RecordOp(id: string, path: string) | BesideOp(id: string, path: string)

  function Replay(index: Index, ops: seq<Op>): Index
    decreases |ops|
  {
    if ops == [] then index
    else
      var next := match ops[0]
        case RecordOp(id, path) => Recorded(index, id, path)
        case BesideOp(id, path) => RecordedBeside(index, id, path);
      Replay(next, ops[1..])
  }

  /** A known duplicate is never hidden before the next rebuild. */
  lemma {:induction false} DuplicateStays(index: Index, ops: seq<Op>, id: string)
    requires Resolved(index, id).Duplicate?
    ensures Resolved(Replay(index, ops), id).Duplicate?
    decreases |ops|
  {
    if ops != [] {
      var next := match ops[0]
        case RecordOp(i, path) => Recorded(index, i, path)
        case BesideOp(i, path) => RecordedBeside(index, i, path);
      assert Resolved(next, id).Duplicate?;
      DuplicateStays(next, ops[1..], id);
    }
  }

  // ---------------------------------------------------------------- what a create leaves

  /** Whether a file carries an identifier can be told of a missing or a parsed file. */
  lemma PresenceExact(vault: Vault, path: string, id: string)
    ensures PresenceOf(vault, path, id) == Present
       <==> path in vault && vault[path].Document? && StringOf(vault[path].fm, TaskIdentifier) == id
    ensures PresenceOf(vault, path, id) == Unknown <==> path in vault && (vault[path].Unreadable? || vault[path].Malformed?)
  {
  }

  /** A create keeps the live path it finds and adds its own beside it, replaces a path that
      no longer carries the identifier, and touches no other identifier. */
  lemma CreateExact(vault: Vault, clean: string -> string, id: string, path: string, index: Index, other: string)
    requires id != "" && path != ""
    ensures var before, after := PathsOf(index, id), PathsOf(AfterCreate(vault, clean, id, path, index), id);
            && (|before| == 0 ==> after == [path])
            && (|before| >= 2 ==> after == before)
            && (|before| == 1 ==>
                  after == if clean(before[0]) == clean(path) || PresenceOf(vault, before[0], id) == Unknown then before
                           else if PresenceOf(vault, before[0], id) == Gone then [path]
                           else if path == before[0] then before
                           else [before[0], path])
    ensures other != id ==> PathsOf(AfterCreate(vault, clean, id, path, index), other) == PathsOf(index, other)
  {
    hide PresenceOf;
  }

  /** A live path stays known: the identifier is then a reported duplicate. */
  lemma LivePathStays(vault: Vault, clean: string -> string, id: string, path: string, index: Index)
    requires id != "" && path != "" && Resolved(index, id).Found? && clean(Resolved(index, id).path) != clean(path)
    requires PresenceOf(vault, Resolved(index, id).path, id) == Present
    ensures Resolved(AfterCreate(vault, clean, id, path, index), id) == Duplicate(Resolved(index, id).path, path)
  {
    hide PresenceOf;
    CreateExact(vault, clean, id, path, index, id);
  }

  /** A walked path names a document whose identifier reads as the one asked for, or whose
      recorded predecessor does. */
  lemma WalkIsSound(dec: Decoder, vault: Vault, listing: seq<string>, id: string)
    requires Walked(dec, vault, listing, id).Hit?
    ensures var p := Walked(dec, vault, listing, id).path;
            && p in listing && p in vault && vault[p].Document? && Walked(dec, vault, listing, id).fm == vault[p].fm
            && var fm := vault[p].fm;
               var current, previous := TextOf(dec, fm, TaskIdentifier), TextOf(dec, fm, TaskIdentifierPrevious);
               current == Some(id) || (previous == Some(id) && id != "")
  {
    var ms := Matches(dec, vault, listing, id);
    assert ms[0] in ms;
  }

  /** Every listed document that reads so and decodes is seen by the walk. */
  lemma WalkIsComplete(dec: Decoder, vault: Vault, listing: seq<string>, id: string, p: string)
    requires p in listing && p in vault && vault[p].Document?
    requires var fm := vault[p].fm;
             var current, previous := TextOf(dec, fm, TaskIdentifier), TextOf(dec, fm, TaskIdentifierPrevious);
             current.Some? && previous.Some? && (current.value == id || (previous.value == id && id != ""))
    ensures !Walked(dec, vault, listing, id).NotFound?
    ensures Walked(dec, vault, listing, id).Hit? ==> Walked(dec, vault, listing, id).path == p
  {
    var ms := Matches(dec, vault, listing, id);
    assert p in ms;
  }

  /** What the index knows twice is refused without a walk; what it knows once and the file
      confirms is found; everything else is walked for. */
  lemma LookupExact(dec: Decoder, vault: Vault, listing: seq<string>, id: string, index: Index)
    requires id != ""
    ensures var known, r := PathsOf(index, id), Lookedup(dec, vault, listing, id, index);
            && (|known| >= 2 ==> r == Ambiguous(known[0], known[1]))
            && (|known| == 1 && Carries(vault, known[0], id) ==> r.Hit? && r.path == known[0])
            && (|known| == 0 || (|known| == 1 && !Carries(vault, known[0], id)) ==> r == Walked(dec, vault, listing, id))
  {
  }

  /** A walk that finds the one file by its current identifier is not repeated: the index
      then leads to it. */
  lemma LookupLearns(dec: Decoder, vault: Vault, listing: seq<string>, id: string, index: Index)
    requires id != "" && !Resolved(index, id).Duplicate? && !IndexHit(vault, id, index)
    requires Walked(dec, vault, listing, id).Hit? && Walked(dec, vault, listing, id).path != ""
    requires MatchOf(dec, vault, Walked(dec, vault, listing, id).path, id) == ByCurrent
    ensures Resolved(IndexAfter(dec, vault, listing, id, index), id) == Found(Walked(dec, vault, listing, id).path)
  {
    hide Walked, MatchOf;
  }
}
