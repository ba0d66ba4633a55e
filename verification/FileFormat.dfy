/** The file format of a task, "---" frontmatter "---" body, as the two readers cut it:
    the writers' ExtractFrontmatter and ExtractBody, and the scanner's own pair. */
module FileFormat {
  import opened Records
  import opened Escalation

  const CLOSING := "\n---"

  /** What every writer puts on disk. */
  function Compose(yaml: string, body: string): string { "---\n" + yaml + "---\n" + body }

  /** strings.Index from a position on */
  function Index(s: string, sub: string, from: nat): (r: Option<nat>)
    requires sub != ""
    ensures r.Some? ==> from <= r.value && OccursAt(s, sub, r.value)
    ensures forall i :: from <= i < (if r.Some? then r.value else |s|) ==> !OccursAt(s, sub, i)
    decreases |s| - from
  {
    if from >= |s| then None
    else if OccursAt(s, sub, from) then Some(from)
    else Index(s, sub, from + 1)
  }

  /** strings.TrimPrefix of one line end */
  function SkipLineEnd(s: string): string {
    if "\r\n" <= s then s[2..] else if "\n" <= s then s[1..] else s
  }

  function AfterOpening(content: string): Option<string> {
    if "---" <= content then Some(SkipLineEnd(content[3..])) else None
  }

  /** ExtractFrontmatter, and extractFrontmatter, which does the same */
  function ExtractFrontmatter(content: string): Option<string> {
    match AfterOpening(content)
    case None => None
    case Some(rest) =>
      match Index(rest, CLOSING, 0)
      case None => None
      case Some(i) => Some(rest[..i])
  }

  /** ExtractBody: the closing delimiter must be a line of its own. */
  function ExtractBody(content: string): Option<string> {
    match AfterOpening(content)
    case None => None
    case Some(rest) =>
      match Index(rest, CLOSING + "\n", 0)
      case None => None
      case Some(i) => Some(rest[i + 5..])
  }

  /** The scanner's extractBody: never fails, and takes any line starting with "---". */
  function ScannerBody(content: string): string {
    match AfterOpening(content)
    case None => content
    case Some(rest) =>
      match Index(rest, CLOSING, 0)
      case None => content
      case Some(i) => SkipLineEnd(rest[i + 4..])
  }

  lemma OccursChars(s: string, i: nat)
    ensures OccursAt(s, CLOSING, i)
       <==> i + 4 <= |s| && s[i] == '\n' && s[i + 1] == '-' && s[i + 2] == '-' && s[i + 3] == '-'
    ensures OccursAt(s, CLOSING + "\n", i) <==> OccursAt(s, CLOSING, i) && i + 5 <= |s| && s[i + 4] == '\n'
  {
    if i + 4 <= |s| {
      var t := s[i..i + 4];
      assert t == CLOSING <==> t[0] == '\n' && t[1] == '-' && t[2] == '-' && t[3] == '-';
    }
    if i + 5 <= |s| {
      var t := s[i..i + 5];
      assert t[..4] == s[i..i + 4];
      assert CLOSING + "\n" == "\n---\n";
      assert t == t[..4] + [t[4]];
    }
  }

  lemma FirstIs(s: string, sub: string, at: nat)
    requires sub != "" && OccursAt(s, sub, at) && forall i :: 0 <= i < at ==> !OccursAt(s, sub, i)
    ensures Index(s, sub, 0) == Some(at)
  {
  }

  lemma SkipNewline(rest: string)
    ensures SkipLineEnd("\n" + rest) == rest
  {
    assert ("\n" + rest)[0] == '\n' && "\r\n"[0] == '\r';
    assert ("\n" + rest)[..1] == "\n" && ("\n" + rest)[1..] == rest;
  }

  /** The text after the opening line of a composed file. */
  lemma ComposeOpens(yaml: string, body: string)
    ensures AfterOpening(Compose(yaml, body)) == Some(yaml + "---\n" + body)
  {
    var content := Compose(yaml, body);
    var rest := yaml + "---\n" + body;
    assert content == "---\n" + rest;
    assert content[3..] == "\n" + rest;
    SkipNewline(rest);
  }

  /** In a composed file the written delimiter is seen, and before it exactly what the
      YAML itself contains: no occurrence straddles the two. */
  lemma DelimiterSeen(yaml: string, body: string, i: nat)
    requires yaml != "" && yaml[|yaml| - 1] == '\n' && i < |yaml|
    ensures i == |yaml| - 1 ==> OccursAt(yaml + "---\n" + body, CLOSING + "\n", i)
    ensures OccursAt(yaml + "---\n" + body, CLOSING, i) <==> i == |yaml| - 1 || OccursAt(yaml, CLOSING, i)
    ensures OccursAt(yaml + "---\n" + body, CLOSING + "\n", i) <==> i == |yaml| - 1 || OccursAt(yaml, CLOSING + "\n", i)
  {
    var rest := yaml + "---\n" + body;
    OccursChars(rest, i);
    OccursChars(yaml, i);
    hide OccursAt;
    assert forall k :: 0 <= k < |yaml| ==> rest[k] == yaml[k];
    assert forall k :: 0 <= k < 4 ==> rest[|yaml| + k] == "---\n"[k];
  }

  /** Reading back what was written gives the YAML (less its final newline) exactly when
      the YAML has no line, behind its first, that starts with the delimiter. */
  lemma FrontmatterRoundTrip(yaml: string, body: string)
    requires yaml != "" && yaml[|yaml| - 1] == '\n'
    ensures ExtractFrontmatter(Compose(yaml, body)) == Some(yaml[..|yaml| - 1]) <==> !Contains(yaml, CLOSING)
    ensures !Contains(yaml, CLOSING) ==> ScannerBody(Compose(yaml, body)) == body
  {
    var rest, at := yaml + "---\n" + body, |yaml| - 1;
    ComposeOpens(yaml, body);
    forall i: nat | i < |yaml| ensures OccursAt(rest, CLOSING, i) <==> i == at || OccursAt(yaml, CLOSING, i) {
      DelimiterSeen(yaml, body, i);
    }
    hide OccursAt, Compose, CLOSING, SkipLineEnd, AfterOpening;
    assert OccursAt(rest, CLOSING, at);
    assert rest[..at] == yaml[..at];
    if Contains(yaml, CLOSING) {
      var i :| 0 <= i <= |yaml| && OccursAt(yaml, CLOSING, i);
      assert |CLOSING| == 4 by { ClosingLength(); }
      NotAtTheEnd(yaml, CLOSING, i);
      assert OccursAt(rest, CLOSING, i);
    } else {
      ClosingLength();
      FirstIs(rest, CLOSING, at);
      assert rest[at + 4..] == "\n" + body;
      SkipNewline(body);
    }
  }

  lemma ClosingLength()
    ensures |CLOSING| == 4
  {
  }

  lemma NotAtTheEnd(s: string, sub: string, i: nat)
    requires |sub| > 1 && OccursAt(s, sub, i)
    ensures i < |s| - 1
  {
  }

  /** The same for the body, where the delimiter must be a whole line. */
  lemma BodyRoundTrip(yaml: string, body: string)
    requires yaml != "" && yaml[|yaml| - 1] == '\n'
    ensures ExtractBody(Compose(yaml, body)) == Some(body) <==> !Contains(yaml, CLOSING + "\n")
  {
    var rest, at, line := yaml + "---\n" + body, |yaml| - 1, CLOSING + "\n";
    ComposeOpens(yaml, body);
    forall i: nat | i < |yaml| ensures OccursAt(rest, line, i) <==> i == at || OccursAt(yaml, line, i) {
      DelimiterSeen(yaml, body, i);
    }
    hide OccursAt, Compose;
    assert OccursAt(rest, line, at);
    if Contains(yaml, line) {
      var i :| 0 <= i <= |yaml| && OccursAt(yaml, line, i);
      NotAtTheEnd(yaml, line, i);
      assert OccursAt(rest, line, i);
    } else {
      FirstIs(rest, line, at);
      assert rest[at + 5..] == body;
    }
  }

  function FirstStart(rest: string): Option<nat> { Index(rest, CLOSING, 0) }

  function FirstBare(rest: string): Option<nat> { Index(rest, CLOSING + "\n", 0) }

  /** The first line starting with the delimiter is the bare delimiter. */
  predicate BareFirst(rest: string) {
    var i := FirstStart(rest);
    i.Some? && i.value + 4 < |rest| && rest[i.value + 4] == '\n'
  }

  lemma NoOverlap(rest: string, i: nat, j: nat)
    requires OccursAt(rest, CLOSING, i) && OccursAt(rest, CLOSING, j) && i < j
    ensures j >= i + 4
  {
    OccursChars(rest, i);
    OccursChars(rest, j);
  }

  lemma BareIsAlsoStart(rest: string)
    requires FirstBare(rest).Some?
    ensures FirstStart(rest).Some? && FirstStart(rest).value <= FirstBare(rest).value
    ensures OccursAt(rest, CLOSING, FirstBare(rest).value)
  {
    OccursChars(rest, FirstBare(rest).value);
  }

  lemma BareFirstIff(rest: string)
    requires FirstStart(rest).Some?
    ensures BareFirst(rest) <==> FirstBare(rest) == FirstStart(rest)
  {
    var at := FirstStart(rest).value;
    OccursChars(rest, at);
    if BareFirst(rest) {
      forall k: nat | k < at ensures !OccursAt(rest, CLOSING + "\n", k) { OccursChars(rest, k); }
      hide OccursAt;
      FirstIs(rest, CLOSING + "\n", at);
    }
  }

  /** The writers and the scanner see the same body exactly when the first line that
      starts with the delimiter is the bare delimiter, ended by a plain newline. */
  lemma BodiesAgree(content: string)
    ensures ExtractBody(content) == Some(ScannerBody(content))
       <==> (AfterOpening(content).Some? && BareFirst(AfterOpening(content).value))
  {
    if AfterOpening(content).Some? {
      var rest := AfterOpening(content).value;
      hide Index, OccursAt, SkipLineEnd, CLOSING;
      if FirstBare(rest).Some? {
        BareIsAlsoStart(rest);
        SameBody(rest);
      } else if FirstStart(rest).Some? {
        BareFirstIff(rest);
      }
    }
  }

  lemma SameBody(rest: string)
    requires FirstBare(rest).Some? && FirstStart(rest).Some?
    ensures FirstBare(rest).value + 5 <= |rest| && FirstStart(rest).value + 4 <= |rest|
    ensures rest[FirstBare(rest).value + 5..] == SkipLineEnd(rest[FirstStart(rest).value + 4..]) <==> BareFirst(rest)
  {
    var i, j := FirstStart(rest).value, FirstBare(rest).value;
    BareIsAlsoStart(rest);
    BareFirstIff(rest);
    OccursChars(rest, j);
    BodyLengths(rest, i);
    if i < j { NoOverlap(rest, i, j); }
    hide *;
    assert i < j ==> |rest[j + 5..]| < |SkipLineEnd(rest[i + 4..])|;
    assert i < j ==> FirstBare(rest) != FirstStart(rest);
    assert i == j ==> FirstBare(rest) == FirstStart(rest);
  }

  /** What the scanner takes behind the delimiter at `i`. */
  lemma BodyLengths(rest: string, i: nat)
    requires OccursAt(rest, CLOSING, i)
    ensures |SkipLineEnd(rest[i + 4..])| >= |rest| - i - 6
    ensures i + 4 < |rest| && rest[i + 4] == '\n' ==> SkipLineEnd(rest[i + 4..]) == rest[i + 5..]
  {
    if i + 4 < |rest| && rest[i + 4] == '\n' {
      assert rest[i + 4..] == "\n" + rest[i + 5..];
      SkipNewline(rest[i + 5..]);
    }
  }

  /** The opening line may end in LF or CRLF, or its text may follow at once; anything else
      has no frontmatter. */
  lemma Openings(rest: string)
    ensures AfterOpening("---\n" + rest) == Some(rest) == AfterOpening("---\r\n" + rest)
    ensures !("\n" <= rest) && !("\r\n" <= rest) ==> AfterOpening("---" + rest) == Some(rest)
    ensures !("---" <= rest) ==> AfterOpening(rest) == None && ScannerBody(rest) == rest
  {
    var lf, crlf := "---\n" + rest, "---\r\n" + rest;
    assert lf[3..] == "\n" + rest && crlf[3..] == "\r\n" + rest;
    SkipNewline(rest);
    assert ("\r\n" + rest)[..2] == "\r\n" && ("\r\n" + rest)[2..] == rest;
    assert ("---" + rest)[3..] == rest;
  }
}
