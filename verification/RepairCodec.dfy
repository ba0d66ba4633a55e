/** What the scanner's results assume of stripping and injecting identifiers holds of the
    line surgery itself, on files whose frontmatter is a block mapping. */
module RepairCodec {
  import opened Records
  import opened IdentifierRepair
  import opened RepairText
  import opened VaultScan
  import opened ScanQuiescence

  const ASSIGNEE := "assignee"

  function Scalar(scalar: string -> string, previous: string): Option<string> {
    if previous == "" then None else Some(scalar(previous))
  }

  /** The codec strips and injects as removeTaskIdentifier and
      injectTaskIdentifierWithPrevious do; `scalar` prints a predecessor. */
  ghost predicate Surgical(s: Settings, find: Finder, scalar: string -> string) {
    && (forall t :: s.codec.strip(t) == RemoveFrontmatterKey(t, TASK_ID, find))
    && (forall t, id, previous :: s.codec.inject(t, id, previous) == InjectWithPrevious(t, id, Scalar(scalar, previous), find))
  }

  /** The scan reads the two keys of this file last-wins. */
  predicate Viewed(s: Settings, open: string, b: Block, close: string, body: seq<string>, meaning: (string, seq<string>) -> Value) {
    var fm := s.codec.view(TextOf(open, b, close, body));
    && fm.Some?
    && Get(fm.value, TaskIdentifier) == Says(b, meaning, TASK_ID)
    && Get(fm.value, Assignee) == Says(b, meaning, ASSIGNEE)
  }

  lemma NamesDiffer()
    ensures ASSIGNEE != TASK_ID && ASSIGNEE != PREVIOUS_ID
  {
    assert ASSIGNEE[0] == 'a' && TASK_ID[0] == 't' && PREVIOUS_ID[0] == 't';
  }

  /** A repair never fails to inject, converges on the minted identifier, and keeps the
      owner. */
  lemma SurgeryConverges(s: Settings, find: Finder, scalar: string -> string, open: string, b: Block, close: string,
                         body: seq<string>, id: string, previous: string, meaning: (string, seq<string>) -> Value)
    requires Surgical(s, find, scalar) && FileOk(open, b, close, body)
    requires '\n' !in id && '\n' !in scalar(previous) && meaning(IdText(id) + Eol(open), []) == Str(id)
    requires Reads(find, open, b, close, body, TASK_ID) && Reads(find, open, Drop(b, TASK_ID), close, body, PREVIOUS_ID)
    requires Viewed(s, open, b, close, body, meaning)
    requires Viewed(s, open, RepairedBlock(b, id, Scalar(scalar, previous), Eol(open)), close, body, meaning)
    ensures var t := TextOf(open, b, close, body);
            var next := s.codec.inject(s.codec.strip(t), id, previous);
            && next == Some(TextOf(open, RepairedBlock(b, id, Scalar(scalar, previous), Eol(open)), close, body))
            && Converges(s, next.value, id) && InjectLaw(s, t, s.codec.strip(t), id, previous)
  {
    var alias := Scalar(scalar, previous);
    var t, after := TextOf(open, b, close, body), RepairedBlock(b, id, alias, Eol(open));
    NamesDiffer();
    RepairOnText(open, b, close, body, id, alias, find);
    RepairedSays(b, id, alias, Eol(open), meaning, TASK_ID);
    RepairedSays(b, id, alias, Eol(open), meaning, ASSIGNEE);
    assert s.codec.inject(s.codec.strip(t), id, previous) == Repair(t, id, alias, find);
    hide RepairedBlock, Says, TextOf, FileOk, Surgical, Repair, RemoveFrontmatterKey, TASK_ID, PREVIOUS_ID, ASSIGNEE, IdText;
  }

  /** So does a first injection into a file that names no identifier. */
  lemma FirstInjectionConverges(s: Settings, find: Finder, scalar: string -> string, open: string, b: Block, close: string,
                                body: seq<string>, id: string, meaning: (string, seq<string>) -> Value)
    requires Surgical(s, find, scalar) && FileOk(open, b, close, body) && Says(b, meaning, TASK_ID) == None
    requires '\n' !in id && meaning(IdText(id) + Eol(open), []) == Str(id)
    requires Viewed(s, open, b, close, body, meaning)
    requires Viewed(s, open, Prepend(b, TASK_ID, IdText(id) + Eol(open)), close, body, meaning)
    ensures var t := TextOf(open, b, close, body);
            var next := s.codec.inject(t, id, "");
            && next == Some(TextOf(open, Prepend(b, TASK_ID, IdText(id) + Eol(open)), close, body))
            && Converges(s, next.value, id) && InjectLaw(s, t, t, id, "")
  {
    var t, line := TextOf(open, b, close, body), IdText(id) + Eol(open);
    NamesDiffer();
    KeyTexts(id, "");
    InjectOnText(open, b, close, body, TASK_ID, IdText(id));
    PrependSays(b, TASK_ID, line, meaning, TASK_ID);
    PrependSays(b, TASK_ID, line, meaning, ASSIGNEE);
    assert s.codec.inject(t, id, "") == InjectLine(t, IdText(id));
    hide Prepend, Says, TextOf, FileOk, Surgical, InjectLine, TASK_ID, PREVIOUS_ID, ASSIGNEE, IdText;
  }
}
