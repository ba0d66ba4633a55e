/** Coalescing of escalation pings: a key is claimed before the send and released when
    the send fails. Claims and releases are atomic; sends of several writers overlap. */
module Coalescing {

  const WINDOW := 1800 // seconds

  /** Entries still inside the window at `now`. */
  function Live(window: map<string, int>, now: int): map<string, int> {
    map k | k in window && now - window[k] < WINDOW :: window[k]
  }

  function AfterClaim(window: map<string, int>, key: string, now: int): map<string, int> {
    var live := Live(window, now);
    if key in live then live else live[key := now]
  }

  class EscalationWindow {
    var publishedAt: map<string, int>

    constructor ()
      ensures publishedAt == map[]
    {
      publishedAt := map[];
    }

    /** claimEscalationCoalescingSlot: prune, then claim unless already claimed. */
    method Claim(key: string, now: int) returns (granted: bool)
      modifies this
      ensures publishedAt == AfterClaim(old(publishedAt), key, now)
      ensures granted <==> key !in Live(old(publishedAt), now)
    {
      ghost var start := publishedAt;
      var keys := publishedAt.Keys;
      while keys != {}
        invariant keys <= start.Keys
        invariant forall k :: k in publishedAt <==> k in start && (k in keys || now - start[k] < WINDOW)
        invariant forall k :: k in publishedAt ==> publishedAt[k] == start[k]
        decreases keys
      {
        var k :| k in keys;
        if now - publishedAt[k] >= WINDOW {
          publishedAt := publishedAt - {k};
        }
        keys := keys - {k};
      }
      assert publishedAt == Live(start, now);
      if key in publishedAt {
        return false;
      }
      publishedAt := publishedAt[key := now];
      granted := true;
    }

    /** releaseEscalationCoalescingSlot: the next claim of the key is granted, whenever it
        comes, and every other key is answered as before. */
    method Release(key: string)
      modifies this
      ensures forall now :: key !in Live(publishedAt, now)
      ensures forall k, now :: k != key ==> (k in Live(publishedAt, now) <==> k in Live(old(publishedAt), now))
      ensures publishedAt == old(publishedAt) - {key}
    {
      publishedAt := publishedAt - {key};
    }
  }

  // ---------------------------------------------------------------- the protocol

  datatype Stage = InFlight | Sent | Dropped

  /** A granted claim and the fate of its send. */
  datatype Ping = Ping(key: string, at: int, stage: Stage)

  datatype State = State(window: map<string, int>, pings: seq<Ping>, clock: int)

  datatype Event =
    | Claim(key: string, now: int)
    | Succeed(i: nat, now: int)
    | Fail(i: nat, now: int)

  /** The clock never runs backwards, and a send ends once. */
  predicate Enabled(s: State, e: Event) {
    && e.now >= s.clock
    && (!e.Claim? ==> e.i < |s.pings| && s.pings[e.i].stage == InFlight)
  }

  function Step(s: State, e: Event): State
    requires Enabled(s, e)
  {
    match e
    case Claim(key, now) =>
      State(AfterClaim(s.window, key, now),
            if key in Live(s.window, now) then s.pings else s.pings + [Ping(key, now, InFlight)], now)
    case Succeed(i, now) => s.(pings := s.pings[i := s.pings[i].(stage := Sent)], clock := now)
    case Fail(i, now) =>
      State(s.window - {s.pings[i].key}, s.pings[i := s.pings[i].(stage := Dropped)], now)
  }

  predicate Counts(p: Ping, key: string) { p.key == key && p.stage != Dropped }

  /** Two pings for one key that were not dropped are a window apart. */
  predicate Spaced(s: State) {
    forall i, j :: 0 <= i < j < |s.pings| && Counts(s.pings[i], s.pings[j].key) && Counts(s.pings[j], s.pings[j].key) ==>
      s.pings[j].at - s.pings[i].at >= WINDOW
  }

  /** Every ping that was not dropped and is younger than the window holds its key. */
  predicate Held(s: State) {
    forall i :: 0 <= i < |s.pings| && Counts(s.pings[i], s.pings[i].key) && s.clock - s.pings[i].at < WINDOW ==>
      s.pings[i].key in s.window && s.window[s.pings[i].key] == s.pings[i].at
  }

  /** Every entry stems from a ping that was not dropped. */
  predicate Backed(s: State) {
    forall k :: k in s.window ==> Claimed(s.pings, k, s.window[k])
  }

  predicate Claimed(pings: seq<Ping>, key: string, at: int) {
    exists i :: 0 <= i < |pings| && Counts(pings[i], key) && pings[i].at == at
  }

  predicate Inv(s: State) {
    && Spaced(s) && Held(s) && Backed(s)
    && forall i :: 0 <= i < |s.pings| ==> s.pings[i].at <= s.clock
  }

  // ---------------------------------------------------------------- what each step keeps

  lemma ClaimKeepsBacked(s: State, key: string, now: int)
    requires Backed(s) && now >= s.clock
    ensures Backed(Step(s, Claim(key, now)))
  {
    var s' := Step(s, Claim(key, now));
    forall k | k in s'.window ensures Claimed(s'.pings, k, s'.window[k]) {
      if k in Live(s.window, now) {
        var i :| 0 <= i < |s.pings| && Counts(s.pings[i], k) && s.pings[i].at == s.window[k];
        assert s'.pings[i] == s.pings[i];
      } else {
        assert s'.pings[|s.pings|] == Ping(key, now, InFlight);
      }
    }
  }

  lemma ClaimKeepsHeld(s: State, key: string, now: int)
    requires Held(s) && now >= s.clock
    ensures Held(Step(s, Claim(key, now)))
    ensures forall i :: 0 <= i < |s.pings| && Counts(s.pings[i], key) && key !in Live(s.window, now) ==>
              now - s.pings[i].at >= WINDOW
  {
    var s' := Step(s, Claim(key, now));
    forall i | 0 <= i < |s.pings| && Counts(s.pings[i], s.pings[i].key) && now - s.pings[i].at < WINDOW
      ensures s.pings[i].key in Live(s.window, now) && s'.window[s.pings[i].key] == s.pings[i].at
    {
      assert s.clock - s.pings[i].at < WINDOW;
    }
    assert forall i :: 0 <= i < |s.pings| ==> s'.pings[i] == s.pings[i];
  }

  lemma ClaimKeepsInv(s: State, key: string, now: int)
    requires Inv(s) && now >= s.clock
    ensures Inv(Step(s, Claim(key, now)))
  {
    ClaimKeepsBacked(s, key, now);
    ClaimKeepsHeld(s, key, now);
    hide Backed, Held, Live, AfterClaim;
    var s' := Step(s, Claim(key, now));
    assert forall i :: 0 <= i < |s.pings| ==> s'.pings[i] == s.pings[i];
    assert |s'.pings| > |s.pings| ==> s'.pings[|s.pings|] == Ping(key, now, InFlight);
  }

  lemma SucceedKeepsInv(s: State, i: nat, now: int)
    requires Inv(s) && Enabled(s, Succeed(i, now))
    ensures Inv(Step(s, Succeed(i, now)))
  {
    var s' := Step(s, Succeed(i, now));
    assert forall k :: 0 <= k < |s.pings| ==> s'.pings[k].key == s.pings[k].key && s'.pings[k].at == s.pings[k].at;
    assert forall k, key :: 0 <= k < |s.pings| ==> Counts(s'.pings[k], key) == Counts(s.pings[k], key);
    forall k | k in s'.window ensures Claimed(s'.pings, k, s'.window[k]) {
      var j :| 0 <= j < |s.pings| && Counts(s.pings[j], k) && s.pings[j].at == s.window[k];
      assert Counts(s'.pings[j], k);
    }
  }

  /** The live entry that a failing send is about to delete is not its own claim: this can
      be read off the map and the sender's claim time. */
  predicate StealsSlot(s: State, i: nat, now: int)
    requires i < |s.pings|
  {
    var key := s.pings[i].key;
    key in s.window && s.window[key] != s.pings[i].at && now - s.window[key] < WINDOW
  }

  /** In that case exactly, another ping still counts on the key. */
  lemma StealsFromAnother(s: State, i: nat, now: int)
    requires Inv(s) && i < |s.pings| && s.pings[i].stage == InFlight && now >= s.clock
    ensures StealsSlot(s, i, now)
       <==> exists j :: 0 <= j < |s.pings| && j != i && Counts(s.pings[j], s.pings[i].key) && now - s.pings[j].at < WINDOW
  {
    var key := s.pings[i].key;
    if StealsSlot(s, i, now) {
      assert Claimed(s.pings, key, s.window[key]);
    }
    forall j | 0 <= j < |s.pings| && j != i && Counts(s.pings[j], key) && now - s.pings[j].at < WINDOW
      ensures StealsSlot(s, i, now)
    {
      assert Counts(s.pings[j], s.pings[j].key) && s.clock - s.pings[j].at < WINDOW;
      assert Counts(s.pings[i], key);
    }
  }

  lemma FailKeepsBacked(s: State, i: nat, now: int)
    requires Backed(s) && Enabled(s, Fail(i, now))
    ensures Backed(Step(s, Fail(i, now)))
  {
    var s' := Step(s, Fail(i, now));
    forall k | k in s'.window ensures Claimed(s'.pings, k, s'.window[k]) {
      var j :| 0 <= j < |s.pings| && Counts(s.pings[j], k) && s.pings[j].at == s.window[k];
      assert s'.pings[j] == s.pings[j];
    }
  }

  /** A failing send keeps the protocol safe exactly when it releases its own claim. */
  lemma FailExact(s: State, i: nat, now: int)
    requires Inv(s) && Enabled(s, Fail(i, now))
    ensures Inv(Step(s, Fail(i, now))) <==> !StealsSlot(s, i, now)
  {
    FailKeepsBacked(s, i, now);
    StealsFromAnother(s, i, now);
    hide Backed, StealsSlot;
    var s' := Step(s, Fail(i, now));
    if StealsSlot(s, i, now) {
      var j :| 0 <= j < |s.pings| && j != i && Counts(s.pings[j], s.pings[i].key) && now - s.pings[j].at < WINDOW;
      assert s'.pings[j] == s.pings[j] && s.pings[i].key !in s'.window;
    } else {
      forall k | 0 <= k < |s'.pings| && Counts(s'.pings[k], s'.pings[k].key) && now - s'.pings[k].at < WINDOW
        ensures s'.pings[k].key in s'.window && s'.window[s'.pings[k].key] == s'.pings[k].at
      {
        assert k != i && s'.pings[k] == s.pings[k] && s.clock - s.pings[k].at < WINDOW;
      }
    }
  }

  /** And if it released somebody else's, the very next escalation pings too early. */
  lemma StolenSlotPingsTwice(s: State, i: nat, now: int)
    requires Inv(s) && Enabled(s, Fail(i, now)) && StealsSlot(s, i, now)
    ensures !Spaced(Step(Step(s, Fail(i, now)), Claim(s.pings[i].key, now)))
  {
    StealsFromAnother(s, i, now);
    var key := s.pings[i].key;
    var s' := Step(s, Fail(i, now));
    var s'' := Step(s', Claim(key, now));
    var j :| 0 <= j < |s.pings| && j != i && Counts(s.pings[j], key) && now - s.pings[j].at < WINDOW;
    assert key !in Live(s'.window, now);
    assert s''.pings[j] == s.pings[j] && s''.pings[|s.pings|] == Ping(key, now, InFlight);
  }

  /** A failing send that ends within its own window releases its own claim. */
  lemma TimelyStealsNothing(s: State, i: nat, now: int)
    requires Inv(s) && i < |s.pings| && s.pings[i].stage == InFlight && now >= s.clock
    requires now - s.pings[i].at < WINDOW
    ensures !StealsSlot(s, i, now)
  {
    assert Counts(s.pings[i], s.pings[i].key) && s.clock - s.pings[i].at < WINDOW;
  }

  /** Such a run: a send outlives its window, the key is claimed again, and the late
      failure frees the second claim. */
  lemma LateFailureSteals(key: string)
    ensures var empty := State(map[], [], 0);
            && Enabled(empty, Claim(key, 0)) && Enabled(Step(empty, Claim(key, 0)), Claim(key, WINDOW))
            && var s := Step(Step(empty, Claim(key, 0)), Claim(key, WINDOW));
               Inv(s) && Enabled(s, Fail(0, WINDOW)) && StealsSlot(s, 0, WINDOW)
  {
    var empty := State(map[], [], 0);
    var once := Step(empty, Claim(key, 0));
    assert once.pings == [Ping(key, 0, InFlight)] && once.window == map[key := 0];
    var twice := Step(once, Claim(key, WINDOW));
    assert twice.pings == [Ping(key, 0, InFlight), Ping(key, WINDOW, InFlight)] && twice.window == map[key := WINDOW];
    assert Inv(empty);
    ClaimKeepsInv(empty, key, 0);
    ClaimKeepsInv(once, key, WINDOW);
  }

  // ---------------------------------------------------------------- whole runs

  /** Failing sends release their own claims, if any. */
  predicate Fair(s: State, e: Event) {
    e.Fail? && e.i < |s.pings| ==> !StealsSlot(s, e.i, e.now)
  }

  /** An event keeps the protocol safe exactly when it is fair. */
  lemma StepExact(s: State, e: Event)
    requires Inv(s) && Enabled(s, e)
    ensures Inv(Step(s, e)) <==> Fair(s, e)
  {
    hide Inv, StealsSlot;
    match e
    case Claim(key, now) => ClaimKeepsInv(s, key, now);
    case Succeed(i, now) => SucceedKeepsInv(s, i, now);
    case Fail(i, now) => FailExact(s, i, now);
  }

  predicate Schedule(s: State, events: seq<Event>)
    decreases |events|
  {
    events == [] || (Enabled(s, events[0]) && Fair(s, events[0]) && Schedule(Step(s, events[0]), events[1..]))
  }

  function Play(s: State, events: seq<Event>): State
    requires Schedule(s, events)
    decreases |events|
  {
    if events == [] then s else Play(Step(s, events[0]), events[1..])
  }

  lemma {:induction false} PlayKeepsInv(s: State, events: seq<Event>)
    requires Inv(s) && Schedule(s, events)
    ensures Inv(Play(s, events))
    decreases |events|
  {
    hide Inv, Step, Enabled, Fair;
    if events != [] {
      StepExact(s, events[0]);
      PlayKeepsInv(Step(s, events[0]), events[1..]);
    }
  }

  /** Over every interleaving of claims and sends in which a failing send releases only
      its own claim: two pings delivered for one key were claimed at least a window apart. */
  lemma PingsAreSpaced(events: seq<Event>, clock: int, i: nat, j: nat)
    requires Schedule(State(map[], [], clock), events)
    requires var end := Play(State(map[], [], clock), events);
             i < j < |end.pings| && end.pings[i].stage == Sent && end.pings[j].stage == Sent
             && end.pings[i].key == end.pings[j].key
    ensures var end := Play(State(map[], [], clock), events);
            end.pings[j].at - end.pings[i].at >= 30 * 60
  {
    PlayKeepsInv(State(map[], [], clock), events);
    var end := Play(State(map[], [], clock), events);
    assert Counts(end.pings[i], end.pings[j].key) && Counts(end.pings[j], end.pings[j].key);
  }

  /** Enough for that: every failing send ends within the window its own claim opened. */
  predicate Timely(s: State, events: seq<Event>)
    decreases |events|
  {
    events == [] ||
    (&& Enabled(s, events[0])
     && (events[0].Fail? ==> events[0].now - s.pings[events[0].i].at < WINDOW)
     && Timely(Step(s, events[0]), events[1..]))
  }

  lemma {:induction false} TimelyIsFair(s: State, events: seq<Event>)
    requires Inv(s) && Timely(s, events)
    ensures Schedule(s, events)
    decreases |events|
  {
    hide Inv, Step, StealsSlot;
    if events != [] {
      var e := events[0];
      if e.Fail? { TimelyStealsNothing(s, e.i, e.now); }
      StepExact(s, e);
      TimelyIsFair(Step(s, e), events[1..]);
    }
  }

  /** A suppressed attempt extends nothing, a failed send frees its key, and after a
      claim every entry is younger than the window, whatever the map held before. */
  lemma ClaimsAndReleases(s: State, e: Event, k: string)
    requires Enabled(s, e)
    ensures var s' := Step(s, e);
            && (e.Claim? && |s'.pings| == |s.pings| && k in s'.window ==> k in s.window && s'.window[k] == s.window[k])
            && (e.Fail? && k == s.pings[e.i].key ==> k !in s'.window)
            && (e.Claim? && k in s'.window ==> e.now - s'.window[k] < 30 * 60)
            && (e.Claim? ==> (|s'.pings| > |s.pings| <==> e.key !in s.window || e.now - s.window[e.key] >= 30 * 60))
            && (e.Claim? && |s'.pings| > |s.pings| ==> e.key in s'.window && s'.window[e.key] == e.now)
            && (k in s.window && (if e.Claim? then e.now - s.window[k] < 30 * 60 else e.Succeed? || k != s.pings[e.i].key) ==>
                  k in s'.window && s'.window[k] == s.window[k])
  {
  }
}
