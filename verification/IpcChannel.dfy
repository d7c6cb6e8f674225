/**
 The authenticated channel over whole runs: a sender that numbers its frames, a network that may
 drop, duplicate, reorder, alter and invent frames, and the core's authenticator.
 */
module IpcChannel {
  import opened Text
  import opened ReplayCache
  import opened Wrappers
  import opened CanonicalJson
  import opened CanonicalOrder
  import opened IpcFrames
  import opened IpcAuth

  // ---------------------------------------------------------------- the sender

  type Signer = Str -> Str

  function Signed(sign: Signer, f: Frame): Option<Frame> {
    var text := Canonicalize(MacContent(f));
    if text.Err? then None else Some(f.(mac := sign(text.value)))
  }

  /** The frame `create` builds; a payload that has no canonical text makes it throw. */
  function Numbered(sign: Signer, sequence: nat, kind: Str, payload: Value, nonce: Str, now: U64): Option<Frame> {
    Signed(sign, Frame(FRAME_VERSION_V2, kind, nonce, now, Some(sequence), payload, []))
  }

  class SequencedFrameFactory {
    const sign: Signer
    var sequence: nat

    constructor (sign: Signer, startSequence: nat)
      ensures this.sign == sign && sequence == startSequence
    {
      this.sign := sign;
      sequence := startSequence;
    }

    /** The number is used up even when building the frame throws. */
    method Create(kind: Str, payload: Value, nonce: Str, now: U64) returns (frame: Option<Frame>)
      modifies this
      ensures sequence == old(sequence) + 1
      ensures frame == Numbered(sign, sequence, kind, payload, nonce, now)
      ensures frame.Some? <==> Printable(payload)
    {
      sequence := sequence + 1;
      var unsigned := Frame(FRAME_VERSION_V2, kind, nonce, now, Some(sequence), payload, []);
      var text := Canonicalize(MacContent(unsigned));
      ContentIsPrintable(unsigned);
      if text.Err? {
        return None;
      }
      return Some(unsigned.(mac := sign(text.value)));
    }
  }

  // ---------------------------------------------------------------- runs

  /** Both ends share the key, so the core's responses are signed too; the network may send anything. */
  datatype Event =
    | Create(payload: Value, nonce: Str, createdAt: U64)
    | Respond(response: Frame)
    | Deliver(frame: Frame, now: U64)

  datatype Channel = Channel(
    sequence: nat,
    created: seq<Frame>,
    responses: seq<Frame>,
    auth: AuthState,
    accepted: seq<Frame>,
    acceptedAt: seq<U64>,
    clock: U64)

  function Start(sequence: nat): Channel {
    Channel(sequence, [], [], INITIAL, [], [], 0)
  }

  ghost function Receive(v: Verdict, c: Channel, f: Frame, now: U64): Channel {
    var step := VerifyStep(v, c.auth, f, REQUEST, now);
    if step.error.Some? then c.(auth := step.state, clock := now)
    else c.(auth := step.state, clock := now, accepted := c.accepted + [f], acceptedAt := c.acceptedAt + [now])
  }

  /** The number is used up, and the frame is sent if there is one. */
  function Sent(c: Channel, f: Option<Frame>): Channel {
    c.(sequence := c.sequence + 1, created := if f.Some? then c.created + [f.value] else c.created)
  }

  ghost function Next(sign: Signer, check: MacCheck, c: Channel, e: Event): Channel {
    match e
    case Create(payload, nonce, createdAt) =>
      Sent(c, Numbered(sign, c.sequence + 1, REQUEST, payload, nonce, createdAt))
    case Respond(f) =>
      if f.kind == RESPONSE then c.(responses := c.responses + [f]) else c
    case Deliver(f, now) => Receive(Judge(check, f), c, f, now)
  }

  ghost function Run(sign: Signer, check: MacCheck, start: nat, events: seq<Event>): Channel {
    if events == [] then Start(start)
    else Next(sign, check, Run(sign, check, start, events[..|events| - 1]), events[|events| - 1])
  }

  /** Nobody but the two ends can make a MAC: one that fits a text was made for that text. */
  ghost predicate Unforged(check: MacCheck, c: Channel, f: Frame) {
    Judge(check, f).Authentic? ==> WasSigned(c, f)
  }

  ghost predicate WasSigned(c: Channel, f: Frame) {
    exists g | g in c.created + c.responses :: Canonicalize(MacContent(g)) == Canonicalize(MacContent(f))
  }

  ghost predicate NoForgery(sign: Signer, check: MacCheck, start: nat, events: seq<Event>) {
    events == []
    || (var before, e := events[..|events| - 1], events[|events| - 1];
        && NoForgery(sign, check, start, before)
        && (e.Deliver? ==> Unforged(check, Run(sign, check, start, before), e.frame)))
  }

  // ---------------------------------------------------------------- ordered, at most once

  predicate Ascending(xs: seq<nat>) {
    forall i, j | 0 <= i < j < |xs| :: xs[i] < xs[j]
  }

  /** `picks` says which created frame each accepted frame is. */
  predicate PickedInOrder(created: seq<Frame>, accepted: seq<Frame>, picks: seq<nat>) {
    && |picks| == |accepted| && Ascending(picks)
    && forall i | 0 <= i < |picks| ::
         picks[i] < |created| && SameContent(accepted[i], created[picks[i]])
         && accepted[i].sequence == created[picks[i]].sequence
  }

  ghost predicate InOrderSubsequence(created: seq<Frame>, accepted: seq<Frame>) {
    exists picks: seq<nat> :: PickedInOrder(created, accepted, picks)
  }

  predicate CreatedInOrder(c: Channel) {
    && (forall i | 0 <= i < |c.created| ::
          c.created[i].version == FRAME_VERSION_V2 && c.created[i].sequence.Some? && c.created[i].sequence.value <= c.sequence)
    && (forall i, j | 0 <= i < j < |c.created| :: c.created[i].sequence.value < c.created[j].sequence.value)
    && (forall i | 0 <= i < |c.responses| :: c.responses[i].kind == RESPONSE)
  }

  ghost predicate Delivered(c: Channel) {
    && CreatedInOrder(c)
    && InOrderSubsequence(c.created, c.accepted)
    && c.auth.lastSequence == if c.accepted == [] then None else c.accepted[|c.accepted| - 1].sequence
  }

  lemma KindsDiffer()
    ensures REQUEST != RESPONSE
  {
    assert REQUEST[2] == 'q' as int && RESPONSE[2] == 's' as int;
  }

  /** The frame is one the factory created. */
  ghost predicate IsCreated(c: Channel, f: Frame) {
    exists k | 0 <= k < |c.created| :: SameContent(f, c.created[k]) && f.sequence == c.created[k].sequence
  }

  predicate IsRequest(f: Frame) {
    f.kind == REQUEST && (f.version == FRAME_VERSION_V2 <==> f.sequence.Some?)
  }

  /** What was signed as a request was created by the factory: the MAC binds kind, version and sequence. */
  lemma SignedRequestIsCreated(c: Channel, f: Frame)
    requires CreatedInOrder(c) && IsRequest(f)
    requires Canonicalize(MacContent(f)).Ok? && WasSigned(c, f)
    ensures IsCreated(c, f)
  {
    var g :| g in c.created + c.responses && Canonicalize(MacContent(g)) == Canonicalize(MacContent(f));
    MacBindsContent(f, g);
    KindsDiffer();
    assert g !in c.responses;
    var k :| 0 <= k < |c.created| && c.created[k] == g;
    assert SameContent(f, c.created[k]) && f.sequence == c.created[k].sequence;
  }

  lemma AscendingAppend(picks: seq<nat>, k: nat)
    requires Ascending(picks) && (picks != [] ==> picks[|picks| - 1] < k)
    ensures Ascending(picks + [k])
  {
  }

  lemma PicksAppend(created: seq<Frame>, accepted: seq<Frame>, picks: seq<nat>, f: Frame, k: nat)
    requires PickedInOrder(created, accepted, picks) && Ascending(picks + [k])
    requires k < |created| && SameContent(f, created[k]) && f.sequence == created[k].sequence
    ensures PickedInOrder(created, accepted + [f], picks + [k])
  {
    var all, more := accepted + [f], picks + [k];
    forall i | 0 <= i < |more|
      ensures more[i] < |created| && SameContent(all[i], created[more[i]]) && all[i].sequence == created[more[i]].sequence
    {
      if i < |picks| {
        assert all[i] == accepted[i] && more[i] == picks[i];
      }
    }
  }

  /** A created frame with a later sequence was created later. */
  lemma LaterSequence(created: seq<Frame>, last: nat, k: nat)
    requires last < |created| && k < |created|
    requires forall i | 0 <= i < |created| :: created[i].sequence.Some?
    requires forall i, j | 0 <= i < j < |created| :: created[i].sequence.value < created[j].sequence.value
    requires created[last].sequence.value < created[k].sequence.value
    ensures last < k
  {
  }

  lemma PickNext(created: seq<Frame>, accepted: seq<Frame>, f: Frame, k: nat)
    requires InOrderSubsequence(created, accepted)
    requires k < |created| && SameContent(f, created[k]) && f.sequence == created[k].sequence
    requires forall i | 0 <= i < |created| :: created[i].sequence.Some?
    requires forall i, j | 0 <= i < j < |created| :: created[i].sequence.value < created[j].sequence.value
    requires accepted != [] ==>
               var last := accepted[|accepted| - 1].sequence; last.Some? && last.value < f.sequence.value
    ensures InOrderSubsequence(created, accepted + [f])
  {
    var picks: seq<nat> :| PickedInOrder(created, accepted, picks);
    if picks != [] {
      var n := |picks| - 1;
      assert accepted[n].sequence == created[picks[n]].sequence;
      LaterSequence(created, picks[n], k);
    }
    AscendingAppend(picks, k);
    PicksAppend(created, accepted, picks, f, k);
  }

  lemma AcceptKeepsOrder(c: Channel, f: Frame)
    requires Delivered(c) && IsCreated(c, f)
    requires c.auth.lastSequence.Some? ==> c.auth.lastSequence.value < f.sequence.value
    ensures InOrderSubsequence(c.created, c.accepted + [f])
  {
    if c.accepted != [] {
      LastIsNumbered(c.created, c.accepted);
    }
    var k :| 0 <= k < |c.created| && SameContent(f, c.created[k]) && f.sequence == c.created[k].sequence;
    PickNext(c.created, c.accepted, f, k);
  }

  lemma ReceiveKeepsOrder(v: Verdict, c: Channel, f: Frame, now: U64)
    requires Delivered(c)
    requires v.Authentic? && IsRequest(f) ==> IsCreated(c, f)
    ensures Delivered(Receive(v, c, f, now))
  {
    var step := VerifyStep(v, c.auth, f, REQUEST, now);
    if step.error.None? {
      AcceptKeepsOrder(c, f);
    } else {
      RefusalKeepsState(v, c.auth, f, REQUEST, now);
    }
  }

  lemma DeliverKeepsOrder(sign: Signer, check: MacCheck, c: Channel, f: Frame, now: U64)
    requires Delivered(c) && Unforged(check, c, f)
    ensures Delivered(Next(sign, check, c, Deliver(f, now)))
  {
    var v := Judge(check, f);
    if v.Authentic? && IsRequest(f) {
      SignedRequestIsCreated(c, f);
    }
    ReceiveKeepsOrder(v, c, f, now);
  }

  lemma LastIsNumbered(created: seq<Frame>, accepted: seq<Frame>)
    requires InOrderSubsequence(created, accepted) && accepted != []
    requires forall i | 0 <= i < |created| :: created[i].sequence.Some?
    ensures accepted[|accepted| - 1].sequence.Some?
  {
    var picks: seq<nat> :| PickedInOrder(created, accepted, picks);
    assert accepted[|accepted| - 1].sequence == created[picks[|accepted| - 1]].sequence;
  }

  lemma MoreCreatedKeepsPicks(created: seq<Frame>, more: seq<Frame>, accepted: seq<Frame>)
    requires InOrderSubsequence(created, accepted)
    ensures InOrderSubsequence(created + more, accepted)
  {
    var picks: seq<nat> :| PickedInOrder(created, accepted, picks);
    assert PickedInOrder(created + more, accepted, picks);
  }

  lemma NumberedContinues(c: Channel, f: Frame)
    requires CreatedInOrder(c) && f.version == FRAME_VERSION_V2 && f.sequence == Some(c.sequence + 1)
    ensures CreatedInOrder(c.(sequence := c.sequence + 1, created := c.created + [f]))
  {
  }

  lemma NumberedFrame(sign: Signer, sequence: nat, kind: Str, payload: Value, nonce: Str, now: U64)
    ensures var f := Numbered(sign, sequence, kind, payload, nonce, now);
            f.Some? ==> f.value.version == FRAME_VERSION_V2 && f.value.sequence == Some(sequence)
  {
  }

  lemma SentKeepsOrder(c: Channel, f: Option<Frame>)
    requires Delivered(c)
    requires f.Some? ==> f.value.version == FRAME_VERSION_V2 && f.value.sequence == Some(c.sequence + 1)
    ensures Delivered(Sent(c, f))
  {
    if f.Some? {
      NumberedContinues(c, f.value);
      MoreCreatedKeepsPicks(c.created, [f.value], c.accepted);
    }
  }

  lemma RespondKeepsOrder(c: Channel, f: Frame)
    requires Delivered(c) && f.kind == RESPONSE
    ensures Delivered(c.(responses := c.responses + [f]))
  {
  }

  lemma NextIsSent(sign: Signer, check: MacCheck, c: Channel, payload: Value, nonce: Str, createdAt: U64)
    returns (f: Option<Frame>)
    ensures Next(sign, check, c, Create(payload, nonce, createdAt)) == Sent(c, f)
    ensures f.Some? ==> f.value.version == FRAME_VERSION_V2 && f.value.sequence == Some(c.sequence + 1)
  {
    f := Numbered(sign, c.sequence + 1, REQUEST, payload, nonce, createdAt);
    NumberedFrame(sign, c.sequence + 1, REQUEST, payload, nonce, createdAt);
  }

  lemma NextOfCreate(sign: Signer, check: MacCheck, c: Channel, payload: Value, nonce: Str, createdAt: U64)
    requires Delivered(c)
    ensures Delivered(Next(sign, check, c, Create(payload, nonce, createdAt)))
  {
    var f := NextIsSent(sign, check, c, payload, nonce, createdAt);
    SentKeepsOrder(c, f);
  }

  lemma CreateKeepsOrder(sign: Signer, check: MacCheck, c: Channel, e: Event)
    requires Delivered(c) && !e.Deliver?
    ensures Delivered(Next(sign, check, c, e))
  {
    match e {
      case Create(payload, nonce, createdAt) => NextOfCreate(sign, check, c, payload, nonce, createdAt);
      case Respond(f) =>
        if f.kind == RESPONSE {
          RespondKeepsOrder(c, f);
        }
    }
  }

  /** Whatever the network does, what the core accepts is an in-order, repetition-free subsequence of
      what the factory created. Nonces that were evicted early change nothing. */
  lemma {:induction false} OrderedAtMostOnce(sign: Signer, check: MacCheck, start: nat, events: seq<Event>)
    requires NoForgery(sign, check, start, events)
    ensures Delivered(Run(sign, check, start, events))
    decreases |events|
  {
    if events == [] {
      assert PickedInOrder([], [], []);
    } else {
      var before := events[..|events| - 1];
      var e := events[|events| - 1];
      OrderedAtMostOnce(sign, check, start, before);
      var c := Run(sign, check, start, before);
      if e.Deliver? {
        DeliverKeepsOrder(sign, check, c, e.frame, e.now);
      } else {
        CreateKeepsOrder(sign, check, c, e);
      }
    }
  }

  // ---------------------------------------------------------------- the rate bound

  /** The clock read for successive deliveries never goes back. */
  predicate ClockMoves(events: seq<Event>) {
    forall i, j | 0 <= i < j < |events| && events[i].Deliver? && events[j].Deliver? :: events[i].now <= events[j].now
  }

  predicate Sorted(ts: seq<U64>) {
    forall i, j | 0 <= i < j < |ts| :: ts[i] <= ts[j]
  }

  /** The queue is a suffix of all acceptances and everything before it is older than the window. */
  predicate IsSuffix(ts: seq<U64>, recent: seq<U64>, now: U64) {
    && |recent| <= |ts| && recent == ts[|ts| - |recent|..]
    && forall i | 0 <= i < |ts| - |recent| :: SaturatingSub(now, ts[i]) > RATE_LIMIT_WINDOW_MS
  }

  /** The queue is exactly the acceptances still in the window. */
  predicate IsWindow(ts: seq<U64>, recent: seq<U64>, now: U64) {
    IsSuffix(ts, recent, now) && forall i | 0 <= i < |recent| :: SaturatingSub(now, recent[i]) <= RATE_LIMIT_WINDOW_MS
  }

  predicate Spread(ts: seq<U64>) {
    forall i, j | 0 <= i < |ts| && 0 <= j < |ts| && j == i + MAX_REQUESTS_PER_WINDOW ::
      ts[i] + RATE_LIMIT_WINDOW_MS < ts[j]
  }

  predicate RateKeptOf(ts: seq<U64>, recent: seq<U64>, clock: U64) {
    && Sorted(ts) && Spread(ts) && IsSuffix(ts, recent, clock)
    && forall i | 0 <= i < |ts| :: ts[i] <= clock
  }

  predicate RateKept(c: Channel) {
    RateKeptOf(c.acceptedAt, c.auth.recentAccepts, c.clock)
  }

  lemma {:induction false} PruningGivesWindow(ts: seq<U64>, recent: seq<U64>, clock: U64, now: U64)
    requires Sorted(ts) && IsSuffix(ts, recent, clock) && clock <= now
    ensures IsWindow(ts, PruneRateWindow(recent, now), now)
    decreases |recent|
  {
    if recent != [] && SaturatingSub(now, recent[0]) > RATE_LIMIT_WINDOW_MS {
      assert recent[0] == ts[|ts| - |recent|];
      assert IsSuffix(ts, recent[1..], now);
      PruningGivesWindow(ts, recent[1..], now, now);
    } else {
      forall i | 0 <= i < |recent| ensures SaturatingSub(now, recent[i]) <= RATE_LIMIT_WINDOW_MS {
        assert recent[i] == ts[|ts| - |recent| + i] && recent[0] == ts[|ts| - |recent|];
      }
    }
  }

  /** A well-formed fresh frame meets the rate limit exactly when 256 acceptances are still in the window. */
  lemma RateLimitedExactly(v: Verdict, c: Channel, f: Frame, now: U64)
    requires RateKept(c) && c.clock <= now && Malformed(f, REQUEST, now).None?
    ensures VerifyStep(v, c.auth, f, REQUEST, now).error == Some(RateLimited)
       <==> |c.acceptedAt| >= MAX_REQUESTS_PER_WINDOW
            && SaturatingSub(now, c.acceptedAt[|c.acceptedAt| - MAX_REQUESTS_PER_WINDOW]) <= RATE_LIMIT_WINDOW_MS
  {
    var ts := c.acceptedAt;
    PruningGivesWindow(ts, c.auth.recentAccepts, c.clock, now);
    var recent := PruneRateWindow(c.auth.recentAccepts, now);
    if |recent| >= MAX_REQUESTS_PER_WINDOW {
      assert recent[|recent| - MAX_REQUESTS_PER_WINDOW] == ts[|ts| - MAX_REQUESTS_PER_WINDOW];
    }
  }

  lemma AcceptKeepsSpread(ts: seq<U64>, recent: seq<U64>, now: U64)
    requires Sorted(ts) && Spread(ts) && IsWindow(ts, recent, now) && |recent| < MAX_REQUESTS_PER_WINDOW
    requires forall i | 0 <= i < |ts| :: ts[i] <= now
    ensures Sorted(ts + [now]) && Spread(ts + [now]) && IsWindow(ts + [now], recent + [now], now)
  {
    var all := ts + [now];
    assert recent + [now] == all[|all| - |recent + [now]|..];
    forall i, j | 0 <= i < |all| && 0 <= j < |all| && j == i + MAX_REQUESTS_PER_WINDOW
      ensures all[i] + RATE_LIMIT_WINDOW_MS < all[j]
    {
      if j == |ts| {
        assert i < |ts| - |recent|;
        assert SaturatingSub(now, ts[i]) > RATE_LIMIT_WINDOW_MS;
      }
    }
  }

  lemma LaterKeepsRate(ts: seq<U64>, recent: seq<U64>, clock: U64, now: U64)
    requires RateKeptOf(ts, recent, clock) && clock <= now
    ensures RateKeptOf(ts, recent, now)
  {
  }

  lemma PrunedKeepsRate(ts: seq<U64>, recent: seq<U64>, clock: U64, now: U64)
    requires RateKeptOf(ts, recent, clock) && clock <= now
    ensures RateKeptOf(ts, PruneRateWindow(recent, now), now) && IsWindow(ts, PruneRateWindow(recent, now), now)
  {
    PruningGivesWindow(ts, recent, clock, now);
  }

  lemma AcceptedKeepsRate(ts: seq<U64>, recent: seq<U64>, clock: U64, now: U64)
    requires RateKeptOf(ts, recent, clock) && clock <= now && |PruneRateWindow(recent, now)| < MAX_REQUESTS_PER_WINDOW
    ensures var kept := PruneRateWindow(recent, now) + [now];
            RateKeptOf(ts + [now], kept, now) && IsWindow(ts + [now], kept, now)
  {
    PrunedKeepsRate(ts, recent, clock, now);
    AcceptKeepsSpread(ts, PruneRateWindow(recent, now), now);
  }

  lemma RecentAfter(v: Verdict, s: AuthState, f: Frame, now: U64)
    ensures var step := VerifyStep(v, s, f, REQUEST, now);
            var pruned := PruneRateWindow(s.recentAccepts, now);
            if step.error.None? then |pruned| < MAX_REQUESTS_PER_WINDOW && step.state.recentAccepts == pruned + [now]
            else step.state.recentAccepts in {s.recentAccepts, pruned}
  {
  }

  lemma ReceiveKeepsRate(v: Verdict, c: Channel, f: Frame, now: U64)
    requires RateKept(c) && c.clock <= now
    ensures RateKept(Receive(v, c, f, now))
    ensures VerifyStep(v, c.auth, f, REQUEST, now).error.None? ==>
              var after := Receive(v, c, f, now);
              IsWindow(after.acceptedAt, after.auth.recentAccepts, now)
  {
    RecentAfter(v, c.auth, f, now);
    var ts, recent := c.acceptedAt, c.auth.recentAccepts;
    if VerifyStep(v, c.auth, f, REQUEST, now).error.None? {
      AcceptedKeepsRate(ts, recent, c.clock, now);
    } else {
      LaterKeepsRate(ts, recent, c.clock, now);
      PrunedKeepsRate(ts, recent, c.clock, now);
    }
  }

  /** The clock is that of the last delivery, if there was one. */
  predicate ClockFollows(c: Channel, events: seq<Event>) {
    && (forall j | 0 <= j < |events| && events[j].Deliver? :: c.clock >= events[j].now)
    && (c.clock == 0 || exists j | 0 <= j < |events| && events[j].Deliver? :: c.clock == events[j].now)
  }

  lemma ClockKeepsFollowing(c: Channel, before: seq<Event>, e: Event, clock: U64)
    requires ClockFollows(c, before) && ClockMoves(before + [e])
    requires clock == if e.Deliver? then e.now else c.clock
    ensures ClockFollows(c.(clock := clock), before + [e])
  {
    var events := before + [e];
    assert events[|before|] == e;
    if c.clock != 0 {
      var j :| 0 <= j < |before| && before[j].Deliver? && c.clock == before[j].now;
      assert events[j] == before[j];
    }
  }

  lemma NextDeliveryIsLater(c: Channel, before: seq<Event>, e: Event)
    requires ClockFollows(c, before) && ClockMoves(before + [e]) && e.Deliver?
    ensures c.clock <= e.now
  {
    var events := before + [e];
    assert events[|before|] == e;
    if c.clock != 0 {
      var j :| 0 <= j < |before| && before[j].Deliver? && c.clock == before[j].now;
      assert events[j] == before[j];
    }
  }

  lemma NextClock(sign: Signer, check: MacCheck, c: Channel, e: Event)
    ensures Next(sign, check, c, e).clock == if e.Deliver? then e.now else c.clock
  {
  }

  lemma NextKeepsRate(sign: Signer, check: MacCheck, c: Channel, e: Event)
    requires RateKept(c) && (e.Deliver? ==> c.clock <= e.now)
    ensures RateKept(Next(sign, check, c, e))
  {
    if e.Deliver? {
      ReceiveKeepsRate(Judge(check, e.frame), c, e.frame, e.now);
    }
  }

  lemma {:induction false} ClockHolds(sign: Signer, check: MacCheck, start: nat, events: seq<Event>)
    requires ClockMoves(events)
    ensures ClockFollows(Run(sign, check, start, events), events)
    decreases |events|
  {
    if events != [] {
      var before := events[..|events| - 1];
      var e := events[|events| - 1];
      assert events == before + [e];
      ClockHolds(sign, check, start, before);
      var c := Run(sign, check, start, before);
      NextClock(sign, check, c, e);
      ClockKeepsFollowing(c, before, e, Next(sign, check, c, e).clock);
    }
  }

  /** The clock of a run is never ahead of its next delivery. */
  lemma ClockBeforeLast(sign: Signer, check: MacCheck, start: nat, events: seq<Event>)
    requires ClockMoves(events) && events != [] && events[|events| - 1].Deliver?
    ensures Run(sign, check, start, events[..|events| - 1]).clock <= events[|events| - 1].now
  {
    var before := events[..|events| - 1];
    var e := events[|events| - 1];
    assert events == before + [e];
    ClockHolds(sign, check, start, before);
    NextDeliveryIsLater(Run(sign, check, start, before), before, e);
  }

  lemma {:induction false} RateHolds(sign: Signer, check: MacCheck, start: nat, events: seq<Event>)
    requires ClockMoves(events)
    ensures RateKept(Run(sign, check, start, events))
    decreases |events|
  {
    if events != [] {
      var before := events[..|events| - 1];
      var e := events[|events| - 1];
      RateHolds(sign, check, start, before);
      if e.Deliver? {
        ClockBeforeLast(sign, check, start, events);
      }
      NextKeepsRate(sign, check, Run(sign, check, start, before), e);
    }
  }

  /** How many of the acceptances fall into a closed interval. */
  function CountBetween(ts: seq<U64>, low: nat, high: nat): nat {
    if ts == [] then 0 else (if low <= ts[0] <= high then 1 else 0) + CountBetween(ts[1..], low, high)
  }

  lemma {:induction false} CountOfParts(a: seq<U64>, b: seq<U64>, low: nat, high: nat)
    ensures CountBetween(a + b, low, high) == CountBetween(a, low, high) + CountBetween(b, low, high)
  {
    if a == [] {
      assert a + b == b;
    } else {
      CountOfParts(a[1..], b, low, high);
      assert (a + b)[1..] == a[1..] + b;
    }
  }

  lemma {:induction false} CountIsBounded(ts: seq<U64>, low: nat, high: nat)
    ensures CountBetween(ts, low, high) <= |ts|
    ensures (forall i | 0 <= i < |ts| :: !(low <= ts[i] <= high)) ==> CountBetween(ts, low, high) == 0
  {
    if ts != [] {
      CountIsBounded(ts[1..], low, high);
    }
  }

  /** The first acceptance at or after `t`. */
  function FirstFrom(ts: seq<U64>, t: nat): (k: nat)
    ensures k <= |ts| && (k < |ts| ==> t <= ts[k]) && forall i | 0 <= i < k :: ts[i] < t
  {
    if ts == [] || t <= ts[0] then 0
    else
      var k := FirstFrom(ts[1..], t);
      assert forall i | 1 <= i < k + 1 :: ts[i] == ts[1..][i - 1];
      k + 1
  }

  /** Only the middle part can fall into the interval. */
  lemma CountOfMiddle(ts: seq<U64>, first: nat, end: nat, low: nat, high: nat)
    requires first <= end <= |ts|
    requires forall i | 0 <= i < first :: ts[i] < low
    requires forall i | end <= i < |ts| :: high < ts[i]
    ensures CountBetween(ts, low, high) <= end - first
  {
    var before, middle, after := ts[..first], ts[first..end], ts[end..];
    assert ts == before + (middle + after);
    CountOfParts(before, middle + after, low, high);
    CountOfParts(middle, after, low, high);
    CountIsBounded(before, low, high);
    CountIsBounded(middle, low, high);
    CountIsBounded(after, low, high);
  }

  lemma SpreadBoundsCount(ts: seq<U64>, t: nat)
    requires Sorted(ts) && Spread(ts)
    ensures CountBetween(ts, t, t + RATE_LIMIT_WINDOW_MS) <= MAX_REQUESTS_PER_WINDOW
  {
    var first := FirstFrom(ts, t);
    var end := if first + MAX_REQUESTS_PER_WINDOW < |ts| then first + MAX_REQUESTS_PER_WINDOW else |ts|;
    if end < |ts| {
      assert ts[first] + RATE_LIMIT_WINDOW_MS < ts[end];
    }
    CountOfMiddle(ts, first, end, t, t + RATE_LIMIT_WINDOW_MS);
  }

  /** In every run, any closed interval of one second contains at most 256 acceptances. */
  lemma AtMost256PerSecond(sign: Signer, check: MacCheck, start: nat, events: seq<Event>, t: nat)
    requires ClockMoves(events)
    ensures CountBetween(Run(sign, check, start, events).acceptedAt, t, t + RATE_LIMIT_WINDOW_MS) <= MAX_REQUESTS_PER_WINDOW
  {
    RateHolds(sign, check, start, events);
    SpreadBoundsCount(Run(sign, check, start, events).acceptedAt, t);
  }
}
