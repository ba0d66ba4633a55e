/** Line splitting and trimming, as strings.Split(s, "\n") and strings.TrimSpace do it. */
module Text {

  /** unicode.IsSpace */
  predicate IsSpace(c: char) {
    || c == ' ' || '\t' <= c <= '\r' || c == 0x85 as char || c == 0xA0 as char || c == 0x1680 as char
    || 0x2000 as char <= c <= 0x200A as char || c == 0x2028 as char || c == 0x2029 as char
    || c == 0x202F as char || c == 0x205F as char || c == 0x3000 as char
  }

  /** strings.TrimSpace(s) != "" */
  predicate HasText(s: string) {
    exists i :: 0 <= i < |s| && !IsSpace(s[i])
  }

  /** The text between newlines; never empty. */
  function Lines(s: string): (ls: seq<string>)
    ensures |ls| > 0
  {
    if s == "" then [""]
    else if s[0] == '\n' then [""] + Lines(s[1..])
    else
      var rest := Lines(s[1..]);
      [[s[0]] + rest[0]] + rest[1..]
  }

  function TrimLeft(s: string): string {
    if s != "" && IsSpace(s[0]) then TrimLeft(s[1..]) else s
  }

  function TrimRight(s: string): string {
    if s != "" && IsSpace(s[|s| - 1]) then TrimRight(s[..|s| - 1]) else s
  }

  lemma TrimRightPrefix(s: string)
    ensures TrimRight(s) <= s
  {
  }

  function Trim(s: string): string { TrimRight(TrimLeft(s)) }

  /** How many lines satisfy `p`. */
  function Count(ls: seq<string>, p: string -> bool): nat {
    if ls == [] then 0 else (if p(ls[0]) then 1 else 0) + Count(ls[1..], p)
  }

  lemma CountConcat(a: seq<string>, b: seq<string>, p: string -> bool)
    ensures Count(a + b, p) == Count(a, p) + Count(b, p)
  {
    if a == [] {
      assert a + b == b;
    } else {
      assert (a + b)[1..] == a[1..] + b;
      CountConcat(a[1..], b, p);
    }
  }

  /** A newline separates the lines before it from the lines after it. */
  lemma {:induction false} LinesConcat(a: string, b: string)
    ensures Lines(a + "\n" + b) == Lines(a) + Lines(b)
    decreases |a|
  {
    var s := a + "\n" + b;
    if a == "" {
      assert s[0] == '\n' && s[1..] == b;
    } else {
      assert s[0] == a[0] && s[1..] == a[1..] + "\n" + b;
      LinesConcat(a[1..], b);
    }
  }

  lemma OneLineLines(s: string)
    requires '\n' !in s
    ensures Lines(s) == [s]
  {
    if s != "" {
      OneLineLines(s[1..]);
      assert [s[0]] + s[1..] == s;
    }
  }

  /** strings.Join(ls, "\n") */
  function JoinLines(ls: seq<string>): string
    requires ls != []
  {
    if |ls| == 1 then ls[0] else ls[0] + "\n" + JoinLines(ls[1..])
  }

  /** Splitting into lines and joining lines are inverse, in both directions. */
  lemma {:induction false} LinesOfJoin(ls: seq<string>)
    requires ls != [] && forall l :: l in ls ==> '\n' !in l
    ensures Lines(JoinLines(ls)) == ls
  {
    hide Lines;
    OneLineLines(ls[0]);
    if |ls| == 1 {
      assert ls == [ls[0]];
    } else {
      LinesConcat(ls[0], JoinLines(ls[1..]));
      LinesOfJoin(ls[1..]);
      assert ls == [ls[0]] + ls[1..];
    }
  }

  lemma {:induction false} JoinOfLines(s: string)
    ensures JoinLines(Lines(s)) == s
  {
    if s != "" {
      JoinOfLines(s[1..]);
      var ls, rest := Lines(s), Lines(s[1..]);
      if s[0] == '\n' {
        assert ls[1..] == rest;
        assert JoinLines(ls) == "" + "\n" + s[1..];
      } else {
        assert ls[1..] == rest[1..];
        if |rest| > 1 {
          assert [s[0]] + rest[0] + "\n" + JoinLines(rest[1..]) == [s[0]] + (rest[0] + "\n" + JoinLines(rest[1..]));
        }
        assert [s[0]] + s[1..] == s;
      }
    }
  }

  predicate AllSpace(s: string) { forall i :: 0 <= i < |s| ==> IsSpace(s[i]) }

  /** Trimming takes away spaces only, and leaves none at either end. */
  lemma TrimExact(s: string) returns (before: string, after: string)
    ensures s == before + Trim(s) + after && AllSpace(before) && AllSpace(after)
    ensures Trim(s) != "" ==> !IsSpace(Trim(s)[0]) && !IsSpace(Trim(s)[|Trim(s)| - 1])
  {
    hide IsSpace;
    before := TrimLeftExact(s);
    after := TrimRightExact(TrimLeft(s));
    var t := Trim(s);
    assert t != "" ==> TrimLeft(s)[0] == t[0];
  }

  lemma {:induction false} TrimLeftExact(s: string) returns (before: string)
    ensures s == before + TrimLeft(s) && AllSpace(before)
    ensures TrimLeft(s) != "" ==> !IsSpace(TrimLeft(s)[0])
  {
    hide IsSpace;
    before := "";
    if s != "" && IsSpace(s[0]) {
      var rest := TrimLeftExact(s[1..]);
      before := [s[0]] + rest;
      assert s == [s[0]] + s[1..];
    }
  }

  lemma {:induction false} TrimRightExact(s: string) returns (after: string)
    ensures s == TrimRight(s) + after && AllSpace(after)
    ensures TrimRight(s) != "" ==> !IsSpace(TrimRight(s)[|TrimRight(s)| - 1])
  {
    hide IsSpace;
    after := "";
    if s != "" && IsSpace(s[|s| - 1]) {
      var rest := TrimRightExact(s[..|s| - 1]);
      after := rest + [s[|s| - 1]];
      assert s == s[..|s| - 1] + [s[|s| - 1]];
    }
  }
}
