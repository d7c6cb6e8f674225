/**
 The desktop's verifier of the core's response frames. Responses carry no sequence, so only the
 freshness window and a nonce map of bounded size protect against replays.
 */
module FrameVerifier {
  import opened Text
  import opened ReplayCache
  import opened ReplayFloods
  import opened Wrappers
  import opened CanonicalJson
  import opened IpcFrames

  const IPC_MAX_CLOCK_SKEW_MS: U64 := 30_000
  const IPC_MAX_REPLAY_ENTRIES: nat := 4_096

  /** Whether a MAC, decoded, is the one of a canonical text. */
  type MacTest = (Str, Str) -> bool

  datatype FrameError =
    | BadVersionOrKind | MissingSequence | UnexpectedSequence | BadNonceLength | OutsideWindow | NonceReplayed
    | NotCanonical | MacMismatch | SequenceNotIncreasing

  /** The nonce map in its insertion order. */
  datatype VerifierState = VerifierState(seen: seq<Use>, lastSequence: Option<nat>)

  predicate Seen(seen: seq<Use>, nonce: Str) {
    exists u <- seen :: u.nonce == nonce
  }

  predicate TooOld(u: Use, now: U64) {
    now - u.timestamp > IPC_MAX_CLOCK_SKEW_MS
  }

  function Fresh(seen: seq<Use>, now: U64): seq<Use> {
    if seen == [] then []
    else Fresh(seen[..|seen| - 1], now) + if TooOld(seen[|seen| - 1], now) then [] else [seen[|seen| - 1]]
  }

  /** The first of the entries with the smallest timestamp. */
  function Oldest(seen: seq<Use>): (i: nat)
    requires seen != []
    ensures i < |seen|
    ensures forall k | 0 <= k < |seen| :: seen[i].timestamp <= seen[k].timestamp
    ensures forall k | 0 <= k < i :: seen[i].timestamp < seen[k].timestamp
  {
    var n := |seen| - 1;
    if n == 0 then 0
    else
      var i := Oldest(seen[..n]);
      assert forall k | 0 <= k < n :: seen[..n][k] == seen[k];
      if seen[n].timestamp < seen[i].timestamp then n else i
  }

  function Without(seen: seq<Use>, i: nat): seq<Use>
    requires i < |seen|
  {
    seen[..i] + seen[i + 1..]
  }

  function Trimmed(seen: seq<Use>): seq<Use>
    decreases |seen|
  {
    if |seen| <= IPC_MAX_REPLAY_ENTRIES then seen else Trimmed(Without(seen, Oldest(seen)))
  }

  function Refusal(test: MacTest, s: VerifierState, f: Frame, kind: Str, now: U64): Option<FrameError> {
    if (f.version != FRAME_VERSION && f.version != FRAME_VERSION_V2) || f.kind != kind then Some(BadVersionOrKind)
    else if f.version == FRAME_VERSION_V2 && f.sequence.None? then Some(MissingSequence)
    else if f.version == FRAME_VERSION && f.sequence.Some? then Some(UnexpectedSequence)
    else if |f.nonce| < 16 || |f.nonce| > 128 then Some(BadNonceLength)
    else if f.timestampMs > now + IPC_MAX_CLOCK_SKEW_MS || now - f.timestampMs > IPC_MAX_CLOCK_SKEW_MS then Some(OutsideWindow)
    else if Seen(s.seen, f.nonce) then Some(NonceReplayed)
    else if Canonicalize(MacContent(f)).Err? then Some(NotCanonical)
    else if !test(Canonicalize(MacContent(f)).value, f.mac) then Some(MacMismatch)
    else if f.version == FRAME_VERSION_V2 && s.lastSequence.Some? && f.sequence.value <= s.lastSequence.value
    then Some(SequenceNotIncreasing)
    else None
  }

  function Admit(s: VerifierState, f: Frame, now: U64): VerifierState {
    VerifierState(Trimmed(Fresh(s.seen + [Use(f.nonce, f.timestampMs)], now)),
                  if f.version == FRAME_VERSION_V2 then f.sequence else s.lastSequence)
  }

  class Verifier {
    const test: MacTest
    const expectedKind: Str
    var seenNonces: seq<Use>
    var lastSequence: Option<nat>

    ghost function State(): VerifierState
      reads this
    {
      VerifierState(seenNonces, lastSequence)
    }

    constructor (expectedKind: Str, test: MacTest)
      ensures this.test == test && this.expectedKind == expectedKind && State() == VerifierState([], None)
    {
      this.test, this.expectedKind := test, expectedKind;
      seenNonces, lastSequence := [], None;
    }

    method Prune(now: U64)
      modifies `seenNonces
      ensures seenNonces == Trimmed(Fresh(old(seenNonces), now))
    {
      var kept: seq<Use> := [];
      for i := 0 to |seenNonces|
        invariant seenNonces == old(seenNonces) && kept == Fresh(seenNonces[..i], now)
      {
        assert seenNonces[..i + 1][..i] == seenNonces[..i];
        if !TooOld(seenNonces[i], now) {
          kept := kept + [seenNonces[i]];
        }
      }
      assert seenNonces[..|seenNonces|] == seenNonces;
      seenNonces := kept;
      while |seenNonces| > IPC_MAX_REPLAY_ENTRIES
        invariant Trimmed(seenNonces) == Trimmed(Fresh(old(seenNonces), now))
        decreases |seenNonces|
      {
        seenNonces := Without(seenNonces, Oldest(seenNonces));
      }
    }

    /** A refused frame changes nothing. */
    method VerifyFrame(f: Frame, now: U64) returns (payload: Option<Value>, error: Option<FrameError>)
      modifies this
      ensures error == Refusal(test, old(State()), f, expectedKind, now)
      ensures State() == if error.Some? then old(State()) else Admit(old(State()), f, now)
      ensures payload == if error.Some? then None else Some(f.payload)
    {
      if (f.version != FRAME_VERSION && f.version != FRAME_VERSION_V2) || f.kind != expectedKind {
        return None, Some(BadVersionOrKind);
      }
      var isV2 := f.version == FRAME_VERSION_V2;
      if isV2 && f.sequence.None? {
        return None, Some(MissingSequence);
      }
      if !isV2 && f.sequence.Some? {
        return None, Some(UnexpectedSequence);
      }
      if |f.nonce| < 16 || |f.nonce| > 128 {
        return None, Some(BadNonceLength);
      }
      if f.timestampMs > now + IPC_MAX_CLOCK_SKEW_MS || now - f.timestampMs > IPC_MAX_CLOCK_SKEW_MS {
        return None, Some(OutsideWindow);
      }
      if Seen(seenNonces, f.nonce) {
        return None, Some(NonceReplayed);
      }
      var text := Canonicalize(MacContent(f));
      if text.Err? {
        return None, Some(NotCanonical);
      }
      if !test(text.value, f.mac) {
        return None, Some(MacMismatch);
      }
      if isV2 {
        if lastSequence.Some? && f.sequence.value <= lastSequence.value {
          return None, Some(SequenceNotIncreasing);
        }
        lastSequence := f.sequence;
      }
      seenNonces := seenNonces + [Use(f.nonce, f.timestampMs)];
      Prune(now);
      return Some(f.payload), None;
    }
  }

  // ---------------------------------------------------------------- what forgetting costs

  predicate DistinctNonces(seen: seq<Use>) {
    forall i, j | 0 <= i < |seen| && 0 <= j < |seen| && seen[i].nonce == seen[j].nonce :: i == j
  }

  function Elements(us: seq<Use>): set<Use> {
    set u | u in us
  }

  predicate Remembers(seen: seq<Use>, uses: seq<Use>, clock: U64) {
    && DistinctNonces(seen) && (forall u <- seen :: u in uses)
    && forall u <- uses :: u in seen || TooOld(u, clock) || Flooded(uses, u, IPC_MAX_REPLAY_ENTRIES)
  }

  lemma {:induction false} CountDistinct(seen: seq<Use>)
    requires DistinctNonces(seen)
    ensures |Elements(seen)| == |seen|
  {
    if seen == [] {
      assert Elements(seen) == {};
    } else {
      var n := |seen| - 1;
      CountDistinct(seen[..n]);
      assert seen == seen[..n] + [seen[n]];
      assert Elements(seen) == Elements(seen[..n]) + {seen[n]};
      assert seen[n] !in seen[..n];
    }
  }

  lemma {:induction false} FreshKeepsTheFresh(seen: seq<Use>, now: U64)
    requires DistinctNonces(seen)
    ensures DistinctNonces(Fresh(seen, now))
    ensures forall u :: u in Fresh(seen, now) <==> u in seen && !TooOld(u, now)
  {
    if seen != [] {
      var n := |seen| - 1;
      FreshKeepsTheFresh(seen[..n], now);
      assert seen == seen[..n] + [seen[n]];
      forall u | u in Fresh(seen[..n], now) ensures u.nonce != seen[n].nonce {
        var k :| 0 <= k < n && seen[k] == u;
      }
    }
  }

  lemma WithoutOldest(seen: seq<Use>)
    requires seen != [] && DistinctNonces(seen)
    ensures var i := Oldest(seen);
            && DistinctNonces(Without(seen, i))
            && (forall u :: u in Without(seen, i) <==> u in seen && u != seen[i])
            && forall u <- seen :: seen[i].timestamp <= u.timestamp
  {
    var i := Oldest(seen);
    var rest := Without(seen, i);
    forall u | u in seen && u != seen[i] ensures u in rest {
      var k :| 0 <= k < |seen| && seen[k] == u;
      assert if k < i then rest[k] == u else rest[k - 1] == u;
    }
  }

  /** Trimming gives up an entry only while it keeps as many as fit that are at least as new. */
  lemma {:induction false} TrimKeepsTheNewest(seen: seq<Use>)
    requires DistinctNonces(seen)
    ensures var kept := Trimmed(seen);
            && DistinctNonces(kept) && (forall u <- kept :: u in seen)
            && forall u <- seen :: u in kept || (|kept| == IPC_MAX_REPLAY_ENTRIES && forall x <- kept :: u.timestamp <= x.timestamp)
    decreases |seen|
  {
    if |seen| > IPC_MAX_REPLAY_ENTRIES {
      var i := Oldest(seen);
      WithoutOldest(seen);
      TrimKeepsTheNewest(Without(seen, i));
      TrimmedSize(Without(seen, i));
    }
  }

  lemma {:induction false} TrimmedSize(seen: seq<Use>)
    ensures |Trimmed(seen)| == if |seen| < IPC_MAX_REPLAY_ENTRIES then |seen| else IPC_MAX_REPLAY_ENTRIES
    decreases |seen|
  {
    if |seen| > IPC_MAX_REPLAY_ENTRIES {
      TrimmedSize(Without(seen, Oldest(seen)));
    }
  }

  lemma GivenUpIsFlooded(kept: seq<Use>, uses: seq<Use>, u: Use)
    requires DistinctNonces(kept) && |kept| == IPC_MAX_REPLAY_ENTRIES && u !in kept
    requires forall x <- kept :: x in uses && u.timestamp <= x.timestamp
    ensures Flooded(uses, u, IPC_MAX_REPLAY_ENTRIES)
  {
    CountDistinct(kept);
    FullCacheFloods(Elements(kept), uses, u, IPC_MAX_REPLAY_ENTRIES);
  }

  /** Accepting a message keeps every earlier one in the map, or too old, or flooded. */
  lemma AdmitRemembers(seen: seq<Use>, uses: seq<Use>, clock: U64, x: Use, now: U64)
    requires Remembers(seen, uses, clock) && clock <= now && !Seen(seen, x.nonce)
    ensures Remembers(Trimmed(Fresh(seen + [x], now)), uses + [x], now)
  {
    var inWindow := Fresh(seen + [x], now);
    assert DistinctNonces(seen + [x]) by {
      assert forall i | 0 <= i < |seen| :: seen[i] in seen;
    }
    FreshKeepsTheFresh(seen + [x], now);
    TrimKeepsTheNewest(inWindow);
    var kept := Trimmed(inWindow);
    forall u | u in uses + [x] ensures u in kept || TooOld(u, now) || Flooded(uses + [x], u, IPC_MAX_REPLAY_ENTRIES) {
      if u in seen + [x] {
        if u in inWindow && u !in kept {
          GivenUpIsFlooded(kept, uses + [x], u);
        }
      } else if !TooOld(u, clock) {
        FloodStays(uses, u, x, IPC_MAX_REPLAY_ENTRIES);
      }
    }
  }

  // ---------------------------------------------------------------- whole runs

  datatype Arrival = Arrival(frame: Frame, now: U64)

  datatype Receiver = Receiver(state: VerifierState, accepted: seq<Frame>, clock: U64)

  function Receive(test: MacTest, kind: Str, r: Receiver, a: Arrival): Receiver {
    if Refusal(test, r.state, a.frame, kind, a.now).Some? then r.(clock := a.now)
    else Receiver(Admit(r.state, a.frame, a.now), r.accepted + [a.frame], a.now)
  }

  function Run(test: MacTest, kind: Str, arrivals: seq<Arrival>): Receiver {
    if arrivals == [] then Receiver(VerifierState([], None), [], 0)
    else Receive(test, kind, Run(test, kind, arrivals[..|arrivals| - 1]), arrivals[|arrivals| - 1])
  }

  predicate ClockMoves(arrivals: seq<Arrival>) {
    forall i, j | 0 <= i < j < |arrivals| :: arrivals[i].now <= arrivals[j].now
  }

  predicate SequencesAscend(frames: seq<Frame>, last: Option<nat>) {
    && (forall i, j | 0 <= i < j < |frames| && frames[i].version == FRAME_VERSION_V2 && frames[j].version == FRAME_VERSION_V2 ::
          frames[i].sequence.Some? && frames[j].sequence.Some? && frames[i].sequence.value < frames[j].sequence.value)
    && (forall i | 0 <= i < |frames| && frames[i].version == FRAME_VERSION_V2 ::
          frames[i].sequence.Some? && last.Some? && frames[i].sequence.value <= last.value)
  }

  predicate Guarded(r: Receiver) {
    && Remembers(r.state.seen, UsesOf(r.accepted), r.clock)
    && ReplaysOnlyAfterFlood(UsesOf(r.accepted), IPC_MAX_REPLAY_ENTRIES)
    && SequencesAscend(r.accepted, r.state.lastSequence)
  }

  lemma ReceiveKeepsGuard(test: MacTest, kind: Str, r: Receiver, a: Arrival)
    requires Guarded(r) && r.clock <= a.now
    ensures Guarded(Receive(test, kind, r, a))
  {
    if Refusal(test, r.state, a.frame, kind, a.now).None? {
      var x := Use(a.frame.nonce, a.frame.timestampMs);
      assert UsesOf(r.accepted + [a.frame]) == UsesOf(r.accepted) + [x];
      AcceptedUse(r.state.seen, UsesOf(r.accepted), r.clock, x, a.now);
      AcceptedSequence(r.accepted, r.state.lastSequence, a.frame);
    }
  }

  lemma AcceptedUse(seen: seq<Use>, uses: seq<Use>, clock: U64, x: Use, now: U64)
    requires Remembers(seen, uses, clock) && ReplaysOnlyAfterFlood(uses, IPC_MAX_REPLAY_ENTRIES)
    requires clock <= now && !Seen(seen, x.nonce) && !TooOld(x, now)
    ensures Remembers(Trimmed(Fresh(seen + [x], now)), uses + [x], now)
    ensures ReplaysOnlyAfterFlood(uses + [x], IPC_MAX_REPLAY_ENTRIES)
  {
    AdmitRemembers(seen, uses, clock, x, now);
    AnotherUse(uses, x, IPC_MAX_REPLAY_ENTRIES);
  }

  lemma AcceptedSequence(frames: seq<Frame>, last: Option<nat>, f: Frame)
    requires SequencesAscend(frames, last)
    requires f.version == FRAME_VERSION_V2 ==> f.sequence.Some? && (last.Some? ==> last.value < f.sequence.value)
    ensures SequencesAscend(frames + [f], if f.version == FRAME_VERSION_V2 then f.sequence else last)
  {
  }

  /** Whatever frames arrive: a response is accepted again only after at least 4096 others that are no older
      have been accepted, and accepted v2 frames have strictly ascending sequences. */
  lemma {:induction false} ReplayNeedsFlood(test: MacTest, kind: Str, arrivals: seq<Arrival>)
    requires ClockMoves(arrivals)
    ensures Guarded(Run(test, kind, arrivals))
    ensures Run(test, kind, arrivals).clock == if arrivals == [] then 0 else arrivals[|arrivals| - 1].now
    decreases |arrivals|
  {
    if arrivals != [] {
      var before := arrivals[..|arrivals| - 1];
      ReplayNeedsFlood(test, kind, before);
      ReceiveKeepsGuard(test, kind, Run(test, kind, before), arrivals[|arrivals| - 1]);
    }
  }

  // ---------------------------------------------------------------- when a frame is accepted

  /** The shape the receiver expects: v1 without and v2 with a sequence, the nonce's length, the time within 30 s. */
  predicate IsFresh(f: Frame, kind: Str, now: U64) {
    && f.kind == kind
    && ((f.version == FRAME_VERSION && f.sequence.None?) || (f.version == FRAME_VERSION_V2 && f.sequence.Some?))
    && 16 <= |f.nonce| <= 128 && f.timestampMs <= now + 30_000 && now <= f.timestampMs + 30_000
  }

  predicate IsGenuine(test: MacTest, f: Frame) {
    var text := Canonicalize(MacContent(f));
    text.Ok? && test(text.value, f.mac)
  }

  lemma {:induction false} LastHolds(test: MacTest, kind: Str, arrivals: seq<Arrival>)
    ensures LastIsGreatest(Run(test, kind, arrivals).accepted, Run(test, kind, arrivals).state.lastSequence)
    decreases |arrivals|
  {
    if arrivals != [] {
      var before, a := arrivals[..|arrivals| - 1], arrivals[|arrivals| - 1];
      LastHolds(test, kind, before);
      var r := Run(test, kind, before);
      if Refusal(test, r.state, a.frame, kind, a.now).None? {
        AfterTheLast(r.accepted, r.state.lastSequence, a.frame);
        LastOfMore(r.accepted, r.state.lastSequence, a.frame);
      }
    }
  }

  /** After every run a frame is accepted if and only if it is fresh and genuine, its nonce is not in the map
      and, for v2, its sequence exceeds that of every v2 frame accepted so far. */
  lemma AcceptedExactly(test: MacTest, kind: Str, arrivals: seq<Arrival>, a: Arrival)
    ensures var r := Run(test, kind, arrivals);
            Run(test, kind, arrivals + [a]).accepted
            == if IsFresh(a.frame, kind, a.now) && IsGenuine(test, a.frame) && !Seen(r.state.seen, a.frame.nonce)
                  && AfterAllAccepted(r.accepted, a.frame)
               then r.accepted + [a.frame] else r.accepted
  {
    assert (arrivals + [a])[..|arrivals|] == arrivals;
    LastHolds(test, kind, arrivals);
    var r := Run(test, kind, arrivals);
    if a.frame.version == FRAME_VERSION_V2 ==> a.frame.sequence.Some? {
      AfterTheLast(r.accepted, r.state.lastSequence, a.frame);
    }
  }

  /** And the map holds no nonce but those of accepted frames: a new one is never taken for a replay. */
  lemma NewNonceIsNotSeen(test: MacTest, kind: Str, arrivals: seq<Arrival>, nonce: Str)
    requires ClockMoves(arrivals) && forall g <- Run(test, kind, arrivals).accepted :: g.nonce != nonce
    ensures !Seen(Run(test, kind, arrivals).state.seen, nonce)
  {
    ReplayNeedsFlood(test, kind, arrivals);
    var r := Run(test, kind, arrivals);
    forall u | u in r.state.seen ensures u.nonce != nonce {
      assert u in UsesOf(r.accepted);
      var i :| 0 <= i < |UsesOf(r.accepted)| && UsesOf(r.accepted)[i] == u;
      assert r.accepted[i] in r.accepted;
    }
  }

  /** Nor does it hold one that was too old when the last frame was accepted. */
  lemma FreshIsFresh(seen: seq<Use>, now: U64)
    requires DistinctNonces(seen)
    ensures forall u <- Trimmed(Fresh(seen, now)) :: !TooOld(u, now)
  {
    FreshKeepsTheFresh(seen, now);
    TrimKeepsTheNewest(Fresh(seen, now));
  }
}
