/** Auto-supersede of recurring tasks: candidates are ranked most recent first, and a
    new instance looks back over at most k of those that are not newer than itself. */
module Supersede {
  import opened Records
  import opened PeriodTokens

  datatype Candidate = Candidate(title: string, ordinal: int)

  predicate SeparatorAt(title: string, i: nat) {
    i + 3 <= |title| && title[i] == ' ' && title[i + 1] == '-' && title[i + 2] == ' '
  }

  /** splitTitleToken: what follows the final " - ". */
  function TokenOf(title: string, from: nat): Option<string>
    requires from <= |title|
  {
    if SeparatorAt(title, from) then Some(title[from + 3..])
    else if from == 0 then None
    else TokenOf(title, from - 1)
  }

  function OrdinalOf(title: string): Option<int> {
    match TokenOf(title, |title|)
    case None => None
    case Some(token) =>
      match ParsePeriod(token)
      case None => None
      case Some(p) => Some(Ordinal(p))
  }

  /** The candidates whose title ends in a recognised token. */
  function Rankable(titles: seq<string>): seq<Candidate> {
    if titles == [] then []
    else
      var before := Rankable(titles[..|titles| - 1]);
      var last := titles[|titles| - 1];
      match OrdinalOf(last)
      case None => before
      case Some(o) => before + [Candidate(last, o)]
  }

  // ---------------------------------------------------------------- the order

  predicate Less(a: string, b: string) {
    b != "" && (a == "" || a[0] < b[0] || (a[0] == b[0] && Less(a[1..], b[1..])))
  }

  lemma {:induction false} LessTotal(a: string, b: string)
    ensures Less(a, b) || Less(b, a) || a == b
    ensures !(Less(a, b) && Less(b, a))
  {
    if a != "" && b != "" {
      LessTotal(a[1..], b[1..]);
      assert a == [a[0]] + a[1..] && b == [b[0]] + b[1..];
    }
  }

  lemma {:induction false} LessTransitive(a: string, b: string, c: string)
    requires Less(a, b) && Less(b, c)
    ensures Less(a, c)
  {
    if a != "" && a[0] == b[0] == c[0] {
      LessTransitive(a[1..], b[1..], c[1..]);
    }
  }

  /** Most recent first; ties by descending title. */
  predicate Precedes(a: Candidate, b: Candidate) {
    a.ordinal > b.ordinal || (a.ordinal == b.ordinal && Less(b.title, a.title))
  }

  predicate Sorted(r: seq<Candidate>) {
    forall i, j :: 0 <= i < j < |r| ==> !Precedes(r[j], r[i])
  }

  lemma PrecedesTotal(a: Candidate, b: Candidate)
    ensures Precedes(a, b) || Precedes(b, a) || a == b
    ensures !(Precedes(a, b) && Precedes(b, a))
  {
    LessTotal(a.title, b.title);
  }

  lemma NotAfterTransitive(a: Candidate, b: Candidate, c: Candidate)
    requires !Precedes(b, a) && !Precedes(c, b)
    ensures !Precedes(c, a)
  {
    LessTotal(a.title, b.title);
    LessTotal(b.title, c.title);
    LessTotal(a.title, c.title);
    if Less(c.title, b.title) && Less(b.title, a.title) { LessTransitive(c.title, b.title, a.title); }
  }

  // ---------------------------------------------------------------- the ranking

  /** Puts one candidate in its place. */
  method Insert(ranked: seq<Candidate>, x: Candidate) returns (r: seq<Candidate>)
    requires Sorted(ranked)
    ensures Sorted(r) && multiset(r) == multiset(ranked) + multiset{x}
  {
    var i := |ranked|;
    while i > 0 && Precedes(x, ranked[i - 1])
      invariant 0 <= i <= |ranked|
      invariant forall j :: i <= j < |ranked| ==> Precedes(x, ranked[j])
      decreases i
    {
      i := i - 1;
    }
    r := ranked[..i] + [x] + ranked[i..];
    assert ranked == ranked[..i] + ranked[i..];
    InsertedSorted(ranked, x, i);
  }

  lemma InsertedSorted(ranked: seq<Candidate>, x: Candidate, i: nat)
    requires Sorted(ranked) && i <= |ranked|
    requires forall j :: i <= j < |ranked| ==> Precedes(x, ranked[j])
    requires i > 0 ==> !Precedes(x, ranked[i - 1])
    ensures Sorted(ranked[..i] + [x] + ranked[i..])
  {
    var r := ranked[..i] + [x] + ranked[i..];
    forall a, b | 0 <= a < b < |r| ensures !Precedes(r[b], r[a]) {
      if a == i {
        PrecedesTotal(x, r[b]);
      } else if b == i && a < i - 1 {
        NotAfterTransitive(ranked[a], ranked[i - 1], x);
      }
    }
  }

  /** rankSameSlugCandidatesDescending */
  method Rank(titles: seq<string>) returns (ranked: seq<Candidate>)
    ensures Ranks(titles, ranked)
    ensures forall i, j :: 0 <= i < j < |ranked| ==> ranked[i].ordinal >= ranked[j].ordinal
    ensures forall i, j :: 0 <= i < j < |ranked| && ranked[i].ordinal == ranked[j].ordinal ==>
              !Less(ranked[i].title, ranked[j].title)
  {
    ranked := [];
    assert titles[..0] == [];
    for n := 0 to |titles|
      invariant Sorted(ranked) && multiset(ranked) == multiset(Rankable(titles[..n]))
    {
      hide OrdinalOf;
      assert titles[..n + 1][..n] == titles[..n];
      var o := OrdinalOf(titles[n]);
      if o.Some? {
        ranked := Insert(ranked, Candidate(titles[n], o.value));
      }
    }
    assert titles[..|titles|] == titles;
  }

  lemma HeadIsFirst(a: seq<Candidate>, x: Candidate)
    requires Sorted(a) && x in a
    ensures !Precedes(x, a[0])
  {
    hide Precedes;
    var i :| 0 <= i < |a| && a[i] == x;
    if i == 0 { PrecedesTotal(x, x); }
  }

  lemma SameHead(a: seq<Candidate>, b: seq<Candidate>)
    requires Sorted(a) && Sorted(b) && multiset(a) == multiset(b) && a != []
    ensures b != [] && a[0] == b[0]
  {
    hide Precedes, Sorted;
    assert a[0] in multiset(b);
    assert b[0] in multiset(a);
    HeadIsFirst(a, b[0]);
    HeadIsFirst(b, a[0]);
    PrecedesTotal(a[0], b[0]);
  }

  lemma {:induction false} SortedUnique(a: seq<Candidate>, b: seq<Candidate>)
    requires Sorted(a) && Sorted(b) && multiset(a) == multiset(b)
    ensures a == b
  {
    hide Precedes;
    if a == [] {
      assert |b| == |multiset(b)|;
    } else {
      SameHead(a, b);
      Tail(a);
      Tail(b);
      SortedUnique(a[1..], b[1..]);
    }
  }

  lemma Tail(a: seq<Candidate>)
    requires a != []
    ensures a == [a[0]] + a[1..] && multiset(a[1..]) == multiset(a) - multiset{a[0]}
  {
    assert a == [a[0]] + a[1..];
  }

  /** How often a candidate is rankable: as often as its title is listed. */
  lemma {:induction false} RankableCounts(titles: seq<string>, x: Candidate)
    ensures multiset(Rankable(titles))[x] == if OrdinalOf(x.title) == Some(x.ordinal) then multiset(titles)[x.title] else 0
  {
    hide OrdinalOf;
    if titles != [] {
      var init, last := titles[..|titles| - 1], titles[|titles| - 1];
      assert titles == init + [last];
      RankableCounts(init, x);
    }
  }

  lemma RankableIgnoresOrder(a: seq<string>, b: seq<string>)
    requires multiset(a) == multiset(b)
    ensures multiset(Rankable(a)) == multiset(Rankable(b))
  {
    hide Rankable, OrdinalOf;
    forall x ensures multiset(Rankable(a))[x] == multiset(Rankable(b))[x] {
      RankableCounts(a, x);
      RankableCounts(b, x);
    }
  }

  /** What Rank promises of its result. */
  predicate Ranks(titles: seq<string>, ranked: seq<Candidate>) {
    Sorted(ranked) && multiset(ranked) == multiset(Rankable(titles))
  }

  /** The ranking is a function of which titles there are: listing them in another
      order, as a redelivery may, ranks them identically. */
  lemma RankingUnique(a: seq<string>, b: seq<string>, ra: seq<Candidate>, rb: seq<Candidate>)
    requires multiset(a) == multiset(b) && Ranks(a, ra) && Ranks(b, rb)
    ensures ra == rb
  {
    hide Sorted, Rankable;
    RankableIgnoresOrder(a, b);
    SortedUnique(ra, rb);
  }

  /** A ranked candidate has the ordinal of its title. */
  lemma RankedOrdinals(titles: seq<string>, ranked: seq<Candidate>, x: Candidate)
    requires Ranks(titles, ranked) && x in ranked
    ensures OrdinalOf(x.title) == Some(x.ordinal)
  {
    hide Rankable, OrdinalOf, Sorted;
    assert multiset(ranked)[x] > 0;
    RankableCounts(titles, x);
  }

  // ---------------------------------------------------------------- the look-back window

  /** The candidates not newer than the new instance, in rank order. */
  function NotNewer(ranked: seq<Candidate>, ordinal: int): (r: seq<Candidate>)
    ensures forall x :: x in r <==> x in ranked && x.ordinal <= ordinal
  {
    if ranked == [] then []
    else
      var before := NotNewer(ranked[..|ranked| - 1], ordinal);
      var last := ranked[|ranked| - 1];
      if last.ordinal <= ordinal then before + [last] else before
  }

  function Window(k: int, ranked: seq<Candidate>, ordinal: int): seq<Candidate> {
    var eligible := NotNewer(ranked, ordinal);
    if k <= 0 then [] else if k < |eligible| then eligible[..k] else eligible
  }

  /** The titles of the candidates that can be closed, in rank order. */
  function ClosableOf(window: seq<Candidate>, closable: string -> bool): seq<string> {
    if window == [] then []
    else
      var init, last := window[..|window| - 1], window[|window| - 1];
      if closable(last.title) then ClosableOf(init, closable) + [last.title] else ClosableOf(init, closable)
  }

  lemma ClosableOneMore(window: seq<Candidate>, x: Candidate, closable: string -> bool)
    ensures ClosableOf(window + [x], closable)
         == ClosableOf(window, closable) + (if closable(x.title) then [x.title] else [])
  {
    assert (window + [x])[..|window|] == window;
  }

  /** collapseCandidates: `closable` tells which files can be read, are in progress and
      have a plain title; the others use up the window all the same. */
  method Collapse(k: int, ranked: seq<Candidate>, ordinal: int, closable: string -> bool)
    returns (closed: seq<string>)
    ensures closed == ClosableOf(Window(k, ranked, ordinal), closable)
  {
    closed := [];
    var inspected := 0;
    ghost var seen := [];
    assert Window(k, ranked[..0], ordinal) == [];
    hide Window;
    for n := 0 to |ranked|
      invariant inspected == |seen| && seen == Window(k, ranked[..n], ordinal)
      invariant closed == ClosableOf(seen, closable)
    {
      WindowOneMore(k, ranked, n, ordinal);
      if inspected >= k {
        WindowFull(k, ranked, n, ordinal);
        return;
      }
      if ranked[n].ordinal > ordinal {
        continue;
      }
      inspected := inspected + 1;
      ClosableOneMore(seen, ranked[n], closable);
      seen := seen + [ranked[n]];
      if closable(ranked[n].title) {
        closed := closed + [ranked[n].title];
      }
    }
    assert ranked[..|ranked|] == ranked;
  }

  lemma WindowOneMore(k: int, ranked: seq<Candidate>, n: nat, ordinal: int)
    requires n < |ranked|
    ensures var now := Window(k, ranked[..n], ordinal);
            Window(k, ranked[..n + 1], ordinal)
            == if |now| >= k || ranked[n].ordinal > ordinal then now else now + [ranked[n]]
  {
    assert ranked[..n + 1][..n] == ranked[..n];
  }

  lemma NotNewerGrows(ranked: seq<Candidate>, n: nat, ordinal: int)
    requires n <= |ranked|
    ensures NotNewer(ranked[..n], ordinal) <= NotNewer(ranked, ordinal)
    decreases |ranked| - n
  {
    if n < |ranked| {
      assert ranked[..n + 1][..n] == ranked[..n];
      NotNewerGrows(ranked, n + 1, ordinal);
    } else {
      assert ranked[..n] == ranked;
    }
  }

  lemma WindowFull(k: int, ranked: seq<Candidate>, n: nat, ordinal: int)
    requires n <= |ranked| && |Window(k, ranked[..n], ordinal)| >= k
    ensures Window(k, ranked, ordinal) == Window(k, ranked[..n], ordinal)
  {
    NotNewerGrows(ranked, n, ordinal);
  }

  /** The window is the k most recent candidates that are not newer: whatever is left
      outside is at most as recent as everything inside, and nothing is left outside
      while there is room. */
  lemma WindowIsMostRecent(k: nat, ranked: seq<Candidate>, ordinal: int, x: Candidate, y: Candidate)
    requires Sorted(ranked) && x in Window(k, ranked, ordinal)
    requires y in NotNewer(ranked, ordinal) && y !in Window(k, ranked, ordinal)
    ensures |Window(k, ranked, ordinal)| == k && y.ordinal <= x.ordinal
    ensures y.ordinal == x.ordinal ==> !Less(x.title, y.title)
  {
    var eligible := NotNewer(ranked, ordinal);
    NotNewerSorted(ranked, ordinal);
    var i :| 0 <= i < k && eligible[..k][i] == x;
    var j :| 0 <= j < |eligible| && eligible[j] == y;
    assert forall n :: 0 <= n < k ==> eligible[n] == eligible[..k][n];
  }

  /** Every eligible candidate is counted as often as it is ranked. */
  lemma {:induction false} NotNewerCounts(ranked: seq<Candidate>, ordinal: int, x: Candidate)
    ensures multiset(NotNewer(ranked, ordinal))[x] == if x.ordinal <= ordinal then multiset(ranked)[x] else 0
  {
    if ranked != [] {
      var init, last := ranked[..|ranked| - 1], ranked[|ranked| - 1];
      assert ranked == init + [last];
      NotNewerCounts(init, ordinal, x);
    }
  }

  /** The window holds eligible candidates, none more often than it is ranked, and as many
      of them as there are, up to k. */
  lemma WindowSize(k: nat, ranked: seq<Candidate>, ordinal: int)
    ensures var eligible := NotNewer(ranked, ordinal);
            && |Window(k, ranked, ordinal)| == (if k < |eligible| then k else |eligible|)
            && multiset(Window(k, ranked, ordinal)) <= multiset(eligible)
  {
    var eligible := NotNewer(ranked, ordinal);
    if k < |eligible| { assert eligible == eligible[..k] + eligible[k..]; }
  }

  lemma {:induction false} NotNewerSorted(ranked: seq<Candidate>, ordinal: int)
    requires Sorted(ranked)
    ensures Sorted(NotNewer(ranked, ordinal))
  {
    if ranked != [] {
      var init, last := ranked[..|ranked| - 1], ranked[|ranked| - 1];
      NotNewerSorted(init, ordinal);
      forall x | x in NotNewer(init, ordinal) ensures !Precedes(last, x) {
        var i :| 0 <= i < |init| && init[i] == x;
        assert ranked[i] == x;
      }
    }
  }

  // ---------------------------------------------------------------- strictly older, or not

  lemma {:induction false} ClosableMembers(window: seq<Candidate>, closable: string -> bool, t: string)
    ensures t in ClosableOf(window, closable) <==> closable(t) && exists x :: x in window && x.title == t
  {
    if window != [] {
      var init, last := window[..|window| - 1], window[|window| - 1];
      assert window == init + [last];
      ClosableMembers(init, closable, t);
      assert forall x :: x in window <==> x in init || x == last;
    }
  }

  predicate StrictlyOlder(title: string, ordinal: int) {
    OrdinalOf(title).Some? && OrdinalOf(title).value < ordinal
  }

  lemma WindowMembers(k: int, ranked: seq<Candidate>, ordinal: int, x: Candidate)
    requires x in Window(k, ranked, ordinal)
    ensures x in ranked && x.ordinal <= ordinal
  {
    assert x in NotNewer(ranked, ordinal);
  }

  /** Only strictly older instances are closed exactly when no closable candidate of the
      window has the new instance's own ordinal. */
  lemma ClosesOnlyOlder(k: int, titles: seq<string>, ranked: seq<Candidate>, ordinal: int, closable: string -> bool)
    requires Ranks(titles, ranked)
    ensures (forall t :: t in ClosableOf(Window(k, ranked, ordinal), closable) ==> StrictlyOlder(t, ordinal))
       <==> (forall x :: x in Window(k, ranked, ordinal) && closable(x.title) ==> x.ordinal != ordinal)
  {
    hide Window, ClosableOf, Ranks, OrdinalOf;
    var window := Window(k, ranked, ordinal);
    forall x | x in window ensures OrdinalOf(x.title) == Some(x.ordinal) && x.ordinal <= ordinal {
      WindowMembers(k, ranked, ordinal, x);
      RankedOrdinals(titles, ranked, x);
    }
    forall t ensures t in ClosableOf(window, closable) <==> closable(t) && exists x :: x in window && x.title == t {
      ClosableMembers(window, closable, t);
    }
  }

  lemma {:induction false} TokenOfAt(title: string, from: nat, at: nat)
    requires at <= from <= |title| && SeparatorAt(title, at)
    requires forall i :: at < i <= from ==> !SeparatorAt(title, i)
    ensures TokenOf(title, from) == Some(title[at + 3..])
    decreases from
  {
    hide SeparatorAt;
    if from > at { TokenOfAt(title, from - 1, at); }
  }

  lemma TitleToken(slug: string, token: string)
    requires token != "" && token[0] != '-' && ' ' !in token
    ensures TokenOf(slug + " - " + token, |slug + " - " + token|) == Some(token)
  {
    var title := slug + " - " + token;
    assert title[|slug|] == ' ' && title[|slug| + 1] == '-' && title[|slug| + 2] == ' ';
    assert forall i :: |slug| + 3 <= i < |title| ==> title[i] == token[i - |slug| - 3];
    assert title[|slug| + 3..] == token;
    TokenOfAt(title, |title|, |slug|);
  }

  lemma WeekdayTitle(slug: string, y: int, w: int, a: string)
    requires Writable(OnWeekday(y, w, a))
    ensures OrdinalOf(slug + " - " + Token(OnWeekday(y, w, a))) == Some(Ordinal(OnWeekday(y, w, a)))
  {
    var token := Token(OnWeekday(y, w, a));
    FourReads(y);
    TwoReads(w);
    assert token[0] == Four(y)[0] && forall c :: c in token <==> c in Four(y) || c == 'W' || c in Two(w) || c == '-' || c in a;
    hide Four, Two, Token, ParsePeriod, Ordinal;
    assert ' ' !in token;
    TokenRoundTrip(OnWeekday(y, w, a));
    TitleToken(slug, token);
  }

  /** Two weekdays of one week share an ordinal: creating the Tuesday task closes the
      Monday one, and creating the Monday task closes the Tuesday one. */
  lemma SameWeekCloses(slug: string, closable: string -> bool)
    requires forall t :: closable(t)
    ensures var mon, tue := slug + " - " + Token(OnWeekday(2026, 5, "mon")), slug + " - " + Token(OnWeekday(2026, 5, "tue"));
            && OrdinalOf(mon) == OrdinalOf(tue) == Some(Ordinal(OnWeekday(2026, 5, "mon")))
            && ClosableOf(Window(1, [Candidate(mon, OrdinalOf(mon).value)], OrdinalOf(tue).value), closable) == [mon]
            && !StrictlyOlder(mon, OrdinalOf(tue).value)
  {
    WeekdayTitle(slug, 2026, 5, "mon");
    WeekdayTitle(slug, 2026, 5, "tue");
    var o := Ordinal(OnWeekday(2026, 5, "mon"));
    assert Ordinal(OnWeekday(2026, 5, "tue")) == o;
    hide Token, OrdinalOf, Ordinal;
    OneCandidate(Candidate(slug + " - " + Token(OnWeekday(2026, 5, "mon")), o), closable);
  }

  lemma OneCandidate(x: Candidate, closable: string -> bool)
    ensures ClosableOf(Window(1, [x], x.ordinal), closable) == if closable(x.title) then [x.title] else []
  {
    assert [x][..0] == [];
    assert NotNewer([x], x.ordinal) == [x];
    assert Window(1, [x], x.ordinal) == [x];
    ClosableOneMore([], x, closable);
    assert [] + [x] == [x];
  }

  /** With a look-back of one, of three older instances the most recent is closed, however
      the three are listed. */
  lemma ClosesTheMostRecent(x1: Candidate, x2: Candidate, x3: Candidate, ranked: seq<Candidate>, ordinal: int, closable: string -> bool)
    requires forall x :: x in {x1, x2, x3} ==> OrdinalOf(x.title) == Some(x.ordinal)
    requires x1.ordinal < x2.ordinal < x3.ordinal <= ordinal && Ranks([x1.title, x2.title, x3.title], ranked) && closable(x3.title)
    ensures ClosableOf(Window(1, ranked, ordinal), closable) == [x3.title]
  {
    hide OrdinalOf, ClosableOf, Window, Rankable;
    assert x1 in {x1, x2, x3} && x2 in {x1, x2, x3} && x3 in {x1, x2, x3};
    ThreeRankable(x1.title, x2.title, x3.title, x1, x2, x3);
    assert multiset([x3, x2, x1]) == multiset([x1, x2, x3]);
    SortedUnique(ranked, [x3, x2, x1]);
    FirstOfThree(x3, x2, x1, ordinal);
    OneClosable(x3, closable);
  }

  lemma ThreeRankable(t1: string, t2: string, t3: string, x1: Candidate, x2: Candidate, x3: Candidate)
    requires OrdinalOf(t1) == Some(x1.ordinal) && OrdinalOf(t2) == Some(x2.ordinal) && OrdinalOf(t3) == Some(x3.ordinal)
    requires x1.title == t1 && x2.title == t2 && x3.title == t3
    ensures Rankable([t1, t2, t3]) == [x1, x2, x3]
  {
    hide OrdinalOf;
    assert [t1, t2, t3][..2] == [t1, t2] && [t1, t2][..1] == [t1] && [t1][..0] == [];
    assert Rankable([t1]) == [x1];
    assert Rankable([t1, t2]) == [x1, x2];
  }

  lemma FirstOfThree(a: Candidate, b: Candidate, c: Candidate, ordinal: int)
    requires a.ordinal <= ordinal && b.ordinal <= ordinal && c.ordinal <= ordinal
    ensures Window(1, [a, b, c], ordinal) == [a]
  {
    NotNewerOneMore([], a, ordinal);
    NotNewerOneMore([a], b, ordinal);
    NotNewerOneMore([a, b], c, ordinal);
    hide NotNewer;
    assert [] + [a] == [a] && [a] + [b] == [a, b] && [a, b] + [c] == [a, b, c];
  }

  lemma NotNewerOneMore(ranked: seq<Candidate>, x: Candidate, ordinal: int)
    requires x.ordinal <= ordinal
    ensures NotNewer(ranked + [x], ordinal) == NotNewer(ranked, ordinal) + [x] && NotNewer([], ordinal) == []
  {
    assert (ranked + [x])[..|ranked|] == ranked;
  }

  lemma OneClosable(x: Candidate, closable: string -> bool)
    requires closable(x.title)
    ensures ClosableOf([x], closable) == [x.title]
  {
    ClosableOneMore([], x, closable);
    assert [] + [x] == [x];
  }
}
