/** Repair of a whole file: removeTaskIdentifier, then injectTaskIdentifierWithPrevious, on
    the text of a file whose frontmatter is a block mapping, and what the last-wins view of
    the result says (the question repairConverges asks before anything is written). */
module RepairText {
  import opened Records
  import opened Text
  import opened IdentifierRepair

  const TASK_ID := "task_identifier"
  const PREVIOUS_ID := "task_identifier_previous"

  /** The lines on which a parser finds a key; None when it cannot read the region as a
      block mapping. Stands for frontmatterKeyLines. */
  type Finder = (seq<string>, nat, string) -> Option<seq<nat>>

  predicate Delimiter(line: string) { TrimCr(line) == "---" }

  /** frontmatterClosingIndex */
  method FrontmatterClosingIndex(lines: seq<string>) returns (r: Option<nat>)
    ensures r.Some? <==> lines != [] && Delimiter(lines[0]) && exists i :: 0 < i < |lines| && Delimiter(lines[i])
    ensures r.Some? ==> 0 < r.value < |lines| && Delimiter(lines[r.value])
    ensures r.Some? ==> forall i :: 0 < i < r.value ==> !Delimiter(lines[i])
    ensures r == ClosingIndex(lines)
  {
    hide Delimiter;
    if lines == [] || !Delimiter(lines[0]) { return None; }
    for i := 1 to |lines|
      invariant forall j :: 0 < j < i ==> !Delimiter(lines[j])
      invariant FirstDelimiter(lines, 1) == FirstDelimiter(lines, i)
    {
      if Delimiter(lines[i]) { return Some(i); }
    }
    return None;
  }

  function FirstDelimiter(lines: seq<string>, from: nat): Option<nat>
    decreases |lines| - from
  {
    if from >= |lines| then None
    else if Delimiter(lines[from]) then Some(from)
    else FirstDelimiter(lines, from + 1)
  }

  function ClosingIndex(lines: seq<string>): Option<nat> {
    if lines == [] || !Delimiter(lines[0]) then None else FirstDelimiter(lines, 1)
  }

  /** removeFrontmatterKey: unreadable files stay as they are. The first line is never a
      key line, so something is left to join. */
  function RemoveFrontmatterKey(content: string, wanted: string, find: Finder): string {
    var lines := Lines(content);
    var closing := ClosingIndex(lines);
    if closing.None? then content
    else
      var keys := find(lines, closing.value, wanted);
      if keys.None? then content
      else
        var kept := Keep(lines, 0, GoneLines(lines, closing.value, keys.value));
        if kept == [] then "" else JoinLines(kept)
  }

  /** InjectTaskIdentifier, for the text of any key line */
  function InjectLine(content: string, text: string): Option<string> {
    if "---\r\n" <= content then Some("---\r\n" + text + "\r\n" + content[5..])
    else if "---\n" <= content then Some("---\n" + text + "\n" + content[4..])
    else None
  }

  function IdText(id: string): string { TASK_ID + ": " + id }

  function PreviousText(scalar: string): string { PREVIOUS_ID + ": " + scalar }

  /** injectTaskIdentifierWithPrevious; `previous` is the rendered scalar, if any. */
  function InjectWithPrevious(content: string, id: string, previous: Option<string>, find: Finder): Option<string> {
    if previous.None? then InjectLine(content, IdText(id))
    else
      var withAlias := InjectLine(RemoveFrontmatterKey(content, PREVIOUS_ID, find), PreviousText(previous.value));
      if withAlias.None? then None else InjectLine(withAlias.value, IdText(id))
  }

  /** What injectAndStore is about to write for a file whose identifier needs repair. */
  function Repair(content: string, id: string, previous: Option<string>, find: Finder): Option<string> {
    InjectWithPrevious(RemoveFrontmatterKey(content, TASK_ID, find), id, previous, find)
  }

  // ---------------------------------------------------------------- files as blocks

  /** A file read as a block mapping with unindented keys. */
  predicate FileOk(open: string, b: Block, close: string, body: seq<string>) {
    && (open == "---" || open == "---\r") && Delimiter(close) && BlockOk(b, 0)
    && (forall l :: l in BlockLines(b) ==> !Delimiter(l) && '\n' !in l)
    && '\n' !in close && (forall l :: l in body ==> '\n' !in l)
  }

  function TextOf(open: string, b: Block, close: string, body: seq<string>): string {
    JoinLines(File(open, b, close, body))
  }

  /** The parser finds `wanted` where the mapping has it. */
  predicate Reads(find: Finder, open: string, b: Block, close: string, body: seq<string>, wanted: string) {
    find(File(open, b, close, body), Closing(b), wanted) == Some(KeysIn(b, wanted))
  }

  lemma {:induction false} FirstDelimiterAt(lines: seq<string>, from: nat, at: nat)
    requires from <= at < |lines| && Delimiter(lines[at])
    requires forall i :: from <= i < at ==> !Delimiter(lines[i])
    ensures FirstDelimiter(lines, from) == Some(at)
    decreases at - from
  {
    hide Delimiter;
    if from < at { FirstDelimiterAt(lines, from + 1, at); }
  }

  lemma ClosingOfFile(open: string, b: Block, close: string, body: seq<string>)
    requires FileOk(open, b, close, body)
    ensures Lines(TextOf(open, b, close, body)) == File(open, b, close, body)
    ensures ClosingIndex(File(open, b, close, body)) == Some(Closing(b))
  {
    hide BlockOk, BlockLines, Lines, JoinLines;
    var lines := File(open, b, close, body);
    assert forall l :: l in lines ==> '\n' !in l;
    LinesOfJoin(lines);
    assert TrimCr("---\r") == TrimCr("---");
    assert Delimiter(open);
    hide Delimiter;
    assert lines[Closing(b)] == close;
    assert forall i :: 0 < i < Closing(b) ==> lines[i] == BlockLines(b)[i - 1];
    FirstDelimiterAt(lines, 1, Closing(b));
  }

  /** Removing a key from the text of a file gives the text of the mapping without it. */
  lemma RemovalOnText(open: string, b: Block, close: string, body: seq<string>, wanted: string, find: Finder)
    requires FileOk(open, b, close, body) && Reads(find, open, b, close, body, wanted)
    ensures RemoveFrontmatterKey(TextOf(open, b, close, body), wanted, find) == TextOf(open, Drop(b, wanted), close, body)
    ensures FileOk(open, Drop(b, wanted), close, body)
  {
    hide Keep, GoneLines, Drop, File, Closing, KeysIn, Lines, JoinLines, ClosingIndex, BlockOk, BlockLines, Delimiter;
    DropOk(b, wanted, 0);
    DropKeepsLines(b, wanted);
    RemovalIsExact(open, b, close, body, 0, wanted);
    ClosingOfFile(open, b, close, body);
    assert File(open, Drop(b, wanted), close, body) != [] by { FileParts(open, b, close, body, wanted); }
  }

  lemma {:induction false} WithoutInside(es: seq<Entry>, wanted: string)
    ensures forall l :: l in Without(es, wanted) ==> l in Flat(es)
  {
    if es != [] { WithoutInside(es[1..], wanted); }
  }

  lemma DropKeepsLines(b: Block, wanted: string)
    ensures forall l :: l in BlockLines(Drop(b, wanted)) ==> l in BlockLines(b)
  {
    DropLines(b, wanted);
    WithoutInside(b.entries, wanted);
  }

  lemma {:induction false} DropOk(b: Block, wanted: string, indent: nat)
    requires BlockOk(b, indent)
    ensures BlockOk(Drop(b, wanted), indent)
    decreases |b.entries|
  {
    hide Blank, IsHead;
    if b.entries != [] {
      var e, rest := b.entries[0], b.entries[1..];
      assert EntriesOk(rest, indent) && EntryOk(e, indent);
      if e.key == wanted {
        DropOk(Block(JoinGaps(b.lead, e.gap), rest), wanted, indent);
      } else {
        DropOk(Block(e.gap, rest), wanted, indent);
        var r := Drop(Block(e.gap, rest), wanted);
        assert EntryOk(e.(gap := r.lead), indent);
      }
    }
  }

  // ---------------------------------------------------------------- injection

  function Eol(open: string): string { if open == "---" then "" else "\r" }

  /** A first entry; what led the mapping now follows it. */
  function Prepend(b: Block, key: string, line: string): Block {
    Block(Gap([], []), [Entry(key, line, [], b.lead)] + b.entries)
  }

  /** A key line that starts with a letter is an unindented head and no delimiter. */
  predicate KeyText(text: string) {
    text != "" && '\n' !in text && !IsIndent(text[0]) && text[0] != '\r' && text[0] != '-'
  }

  lemma {:induction false} TrimCrHead(line: string)
    requires line != "" && line[0] != '\r'
    ensures TrimCr(line) != "" && TrimCr(line)[0] == line[0]
  {
    if line[|line| - 1] == '\r' { TrimCrHead(line[..|line| - 1]); }
  }

  lemma InjectOnText(open: string, b: Block, close: string, body: seq<string>, key: string, text: string)
    requires FileOk(open, b, close, body) && KeyText(text)
    ensures InjectLine(TextOf(open, b, close, body), text) == Some(TextOf(open, Prepend(b, key, text + Eol(open)), close, body))
    ensures FileOk(open, Prepend(b, key, text + Eol(open)), close, body)
  {
    hide *;
    var line := text + Eol(open);
    var rest := BlockLines(b) + [close] + body;
    KeyLineOk(open, b, close, body, text);
    PrependOk(b, key, line, open, close, body);
    FileLines(open, b, close, body);
    FileLines(open, Prepend(b, key, line), close, body);
    assert [line] + BlockLines(b) + [close] + body == [line] + rest;
    JoinCons(open, rest);
    JoinCons(line, rest);
    JoinCons(open, [line] + rest);
    InjectedText(open, text, JoinLines(rest));
  }

  lemma KeyLineOk(open: string, b: Block, close: string, body: seq<string>, text: string)
    requires FileOk(open, b, close, body) && KeyText(text)
    ensures KeyText(text + Eol(open)) && (open == "---" || open == "---\r")
  {
    hide BlockOk, BlockLines, Delimiter;
  }

  lemma FileLines(open: string, b: Block, close: string, body: seq<string>)
    ensures File(open, b, close, body) == [open] + (BlockLines(b) + [close] + body)
    ensures TextOf(open, b, close, body) == JoinLines([open] + (BlockLines(b) + [close] + body))
  {
    hide BlockLines, JoinLines;
  }

  lemma JoinCons(first: string, rest: seq<string>)
    requires rest != []
    ensures JoinLines([first] + rest) == first + "\n" + JoinLines(rest)
  {
    assert ([first] + rest)[1..] == rest;
  }

  lemma InjectedText(open: string, text: string, rest: string)
    requires open == "---" || open == "---\r"
    ensures InjectLine(open + "\n" + rest, text) == Some(open + "\n" + (text + Eol(open) + "\n" + rest))
  {
    var content := open + "\n" + rest;
    assert content[3] == if open == "---" then '\n' else '\r';
    if open == "---" {
      assert content[4..] == rest;
      assert "---\n" + text + "\n" + rest == open + "\n" + (text + Eol(open) + "\n" + rest);
    } else {
      assert content[5..] == rest;
      assert "---\r\n" + text + "\r\n" + rest == open + "\n" + (text + Eol(open) + "\n" + rest);
    }
  }

  lemma PrependOk(b: Block, key: string, line: string, open: string, close: string, body: seq<string>)
    requires FileOk(open, b, close, body) && KeyText(line)
    ensures FileOk(open, Prepend(b, key, line), close, body)
    ensures BlockLines(Prepend(b, key, line)) == [line] + BlockLines(b)
  {
    TrimCrHead(line);
    var e := Entry(key, line, [], b.lead);
    assert EntryOk(e, 0);
    hide Delimiter, Blank, IsHead;
    assert ([e] + b.entries)[1..] == b.entries;
    assert LinesOf(e) == [line] + GapLines(b.lead);
  }

  // ---------------------------------------------------------------- what the result says

  /** The mapping as key and value nodes, for any reading of the value's lines. */
  function Nodes<V>(es: seq<Entry>, meaning: (string, seq<string>) -> V): seq<Node<V>> {
    if es == [] then [] else [Node(es[0].key, meaning(es[0].line, es[0].value))] + Nodes(es[1..], meaning)
  }

  function RepairedBlock(b: Block, id: string, previous: Option<string>, eol: string): Block {
    var d := Drop(b, TASK_ID);
    var aliased := if previous.None? then d else Prepend(Drop(d, PREVIOUS_ID), PREVIOUS_ID, PreviousText(previous.value) + eol);
    Prepend(aliased, TASK_ID, IdText(id) + eol)
  }

  /** The last value a mapping gives a key. */
  function Says<V>(b: Block, meaning: (string, seq<string>) -> V, key: string): Option<V> {
    LastValue(Nodes(b.entries, meaning), key)
  }

  lemma {:induction false} LastValueCons<V>(n: Node<V>, nodes: seq<Node<V>>, key: string)
    ensures LastValue([n] + nodes, key)
         == if LastValue(nodes, key).Some? then LastValue(nodes, key) else if n.key == key then Some(n.value) else None
  {
    var all := [n] + nodes;
    if nodes != [] {
      assert all[..|all| - 1] == [n] + nodes[..|nodes| - 1];
      LastValueCons(n, nodes[..|nodes| - 1], key);
    } else {
      assert all[..0] == [];
    }
  }

  lemma {:induction false} DropSays<V>(b: Block, wanted: string, meaning: (string, seq<string>) -> V, key: string)
    ensures Says(Drop(b, wanted), meaning, key) == if key == wanted then None else Says(b, meaning, key)
    decreases |b.entries|
  {
    if b.entries != [] {
      var e, rest := b.entries[0], b.entries[1..];
      var n := Node(e.key, meaning(e.line, e.value));
      LastValueCons(n, Nodes(rest, meaning), key);
      if e.key == wanted {
        DropSays(Block(JoinGaps(b.lead, e.gap), rest), wanted, meaning, key);
      } else {
        DropSays(Block(e.gap, rest), wanted, meaning, key);
        var r := Drop(Block(e.gap, rest), wanted);
        assert ([e.(gap := r.lead)] + r.entries)[1..] == r.entries;
        LastValueCons(n, Nodes(r.entries, meaning), key);
      }
    }
  }

  /** Injecting a key in front wins exactly when nothing behind it says otherwise: the
      condition the convergence guard tests. */
  lemma PrependSays<V>(b: Block, key: string, line: string, meaning: (string, seq<string>) -> V, k: string)
    ensures Says(Prepend(b, key, line), meaning, k)
         == if Says(b, meaning, k).Some? then Says(b, meaning, k) else if k == key then Some(meaning(line, [])) else None
    ensures Says(Prepend(b, key, line), meaning, key) == Some(meaning(line, []))
       <==> (Says(b, meaning, key) == None || Says(b, meaning, key) == Some(meaning(line, [])))
  {
    var e := Entry(key, line, [], b.lead);
    assert ([e] + b.entries)[1..] == b.entries;
    LastValueCons(Node(key, meaning(line, [])), Nodes(b.entries, meaning), k);
    LastValueCons(Node(key, meaning(line, [])), Nodes(b.entries, meaning), key);
  }

  lemma KeyTexts(id: string, scalar: string)
    ensures '\n' !in id ==> KeyText(IdText(id))
    ensures '\n' !in scalar ==> KeyText(PreviousText(scalar))
    ensures TASK_ID != PREVIOUS_ID
  {
    assert IdText(id)[0] == 't' && PreviousText(scalar)[0] == 't';
    assert |TASK_ID| != |PREVIOUS_ID|;
  }

  /** What the repaired mapping says: the minted line for task_identifier, the recorded
      one for the alias, and for every other key what was said before. */
  lemma RepairedSays<V>(b: Block, id: string, previous: Option<string>, eol: string, meaning: (string, seq<string>) -> V, key: string)
    ensures Says(RepairedBlock(b, id, previous, eol), meaning, key)
         == if key == TASK_ID then Some(meaning(IdText(id) + eol, []))
            else if key == PREVIOUS_ID && previous.Some? then Some(meaning(PreviousText(previous.value) + eol, []))
            else Says(b, meaning, key)
  {
    KeyTexts(id, "");
    hide Drop, Prepend, Says, IdText, PreviousText, TASK_ID, PREVIOUS_ID;
    var d := Drop(b, TASK_ID);
    DropSays(b, TASK_ID, meaning, key);
    if previous.Some? {
      var d2, line := Drop(d, PREVIOUS_ID), PreviousText(previous.value) + eol;
      DropSays(d, PREVIOUS_ID, meaning, key);
      PrependSays(d2, PREVIOUS_ID, line, meaning, key);
      PrependSays(Prepend(d2, PREVIOUS_ID, line), TASK_ID, IdText(id) + eol, meaning, key);
    } else {
      PrependSays(d, TASK_ID, IdText(id) + eol, meaning, key);
    }
  }

  /** Repairing the text of a block mapping gives the text of the repaired one: the lines
      of every other key stay, in order, and so does everything from the closing
      delimiter on. With RepairedSays, repair of such a file always converges. */
  lemma RepairOnText(open: string, b: Block, close: string, body: seq<string>, id: string, previous: Option<string>, find: Finder)
    requires FileOk(open, b, close, body) && '\n' !in id && (previous.Some? ==> '\n' !in previous.value)
    requires Reads(find, open, b, close, body, TASK_ID)
    requires Reads(find, open, Drop(b, TASK_ID), close, body, PREVIOUS_ID)
    ensures Repair(TextOf(open, b, close, body), id, previous, find)
         == Some(TextOf(open, RepairedBlock(b, id, previous, Eol(open)), close, body))
    ensures FileOk(open, RepairedBlock(b, id, previous, Eol(open)), close, body)
  {
    KeyTexts(id, if previous.Some? then previous.value else "");
    hide FileOk, TextOf, Drop, Prepend, IdText, PreviousText, RemoveFrontmatterKey, InjectLine, Reads, KeyText, TASK_ID, PREVIOUS_ID;
    var d := Drop(b, TASK_ID);
    RemovalOnText(open, b, close, body, TASK_ID, find);
    if previous.Some? {
      var d2, text := Drop(d, PREVIOUS_ID), PreviousText(previous.value);
      RemovalOnText(open, d, close, body, PREVIOUS_ID, find);
      InjectOnText(open, d2, close, body, PREVIOUS_ID, text);
      InjectOnText(open, Prepend(d2, PREVIOUS_ID, text + Eol(open)), close, body, TASK_ID, IdText(id));
    } else {
      InjectOnText(open, d, close, body, TASK_ID, IdText(id));
    }
  }

  /** A file without frontmatter, or one the parser cannot read as a block mapping, is left
      as it is; without an opening line there is nothing to inject behind. */
  lemma UnreadableStays(content: string, wanted: string, find: Finder, text: string)
    ensures var lines := Lines(content);
            (ClosingIndex(lines).None? || find(lines, ClosingIndex(lines).value, wanted).None?) ==>
              RemoveFrontmatterKey(content, wanted, find) == content
    ensures InjectLine(content, text).Some? <==> "---\n" <= content || "---\r\n" <= content
  {
    hide Keep, GoneLines, JoinLines, Lines, ClosingIndex;
  }
}
