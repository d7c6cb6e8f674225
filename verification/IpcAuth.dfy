/**
 The core's frame authenticator: version, length and freshness checks, a sliding-window rate limit,
 the nonce cache, the MAC, and a strictly increasing sequence for v2 frames. Whether a MAC fits a
 canonical text is a parameter, `check`.
 */
module IpcAuth {
  import opened Text
  import opened ReplayCache
  import opened Wrappers
  import opened CanonicalJson
  import opened IpcFrames

  const MAX_CLOCK_SKEW_MS: U64 := 30_000
  const MAX_REPLAY_ENTRIES: nat := 4_096
  const MAX_PAYLOAD_CANONICAL_BYTES: nat := 64 * 1024
  const MAX_MAC_B64_LEN: nat := 64
  const RATE_LIMIT_WINDOW_MS: U64 := 1_000
  const MAX_REQUESTS_PER_WINDOW: nat := 256

  datatype MacVerdict = Matches | BadEncoding | Mismatch

  type MacCheck = (Str, Str) -> MacVerdict

  datatype VerifyError =
    | BadVersionOrKind | MissingSequence | UnexpectedSequence | MacTooLong | BadNonceLength | StaleTimestamp
    | RateLimited | NonceReplayed | NotCanonical | PayloadTooLarge | MacNotBase64 | MacMismatch
    | SequenceNotIncreasing

  datatype AuthState = AuthState(seenNonces: Cache, lastSequence: Option<nat>, recentAccepts: seq<U64>)

  const INITIAL: AuthState := AuthState(map[], None, [])

  // ---------------------------------------------------------------- the rate window

  function PruneRateWindow(recent: seq<U64>, now: U64): seq<U64> {
    if recent != [] && SaturatingSub(now, recent[0]) > RATE_LIMIT_WINDOW_MS
    then PruneRateWindow(recent[1..], now)
    else recent
  }

  // ---------------------------------------------------------------- the nonce cache

  /** The entry `prune` evicts: the smallest timestamp, and the first nonce among equals. */
  ghost predicate IsOldest(seen: Cache, n: Str) {
    n in seen && forall k | k in seen && k != n :: seen[n] < seen[k] || (seen[n] == seen[k] && Utf8Less(n, k))
  }

  lemma {:induction false} OldestExists(seen: Cache)
    requires seen != map[]
    ensures exists n :: IsOldest(seen, n)
    decreases |seen|
  {
    var k :| k in seen;
    var others := seen - {k};
    assert seen.Keys == others.Keys + {k};
    if others == map[] {
      assert IsOldest(seen, k);
    } else {
      OldestExists(others);
      var n :| IsOldest(others, n);
      if seen[k] < seen[n] || (seen[k] == seen[n] && Utf8Less(k, n)) {
        forall x | x in seen && x != k && seen[x] == seen[k] ensures Utf8Less(k, x) {
          if x != n {
            Utf8LessIsTransitive(k, n, x);
          }
        }
        assert IsOldest(seen, k);
      } else {
        Utf8LessIsTotal(k, n);
        assert IsOldest(seen, n);
      }
    }
  }

  lemma OldestIsUnique(seen: Cache, m: Str, n: Str)
    requires IsOldest(seen, m) && IsOldest(seen, n)
    ensures m == n
  {
    if m != n {
      Utf8LessIsAsymmetric(m, n);
    }
  }

  ghost function Oldest(seen: Cache): (n: Str)
    requires seen != map[]
    ensures IsOldest(seen, n)
  {
    OldestExists(seen);
    var n :| IsOldest(seen, n);
    n
  }

  ghost function TrimToCapacity(seen: Cache): Cache
    decreases |seen|
  {
    if |seen| <= MAX_REPLAY_ENTRIES then seen
    else
      assert seen.Keys == (seen - {Oldest(seen)}).Keys + {Oldest(seen)};
      TrimToCapacity(seen - {Oldest(seen)})
  }

  lemma {:induction false} TrimmedSize(seen: Cache)
    ensures |TrimToCapacity(seen)| == if |seen| <= MAX_REPLAY_ENTRIES then |seen| else MAX_REPLAY_ENTRIES
    decreases |seen|
  {
    if |seen| > MAX_REPLAY_ENTRIES {
      var n := Oldest(seen);
      assert seen.Keys == (seen - {n}).Keys + {n};
      TrimmedSize(seen - {n});
    }
  }

  lemma {:induction false} TrimKeepsTheNewest(seen: Cache)
    ensures var kept := TrimToCapacity(seen);
            && (forall n | n in kept :: n in seen && kept[n] == seen[n])
            && (forall n, k | n in seen && n !in kept && k in kept :: seen[n] <= kept[k])
    decreases |seen|
  {
    if |seen| > MAX_REPLAY_ENTRIES {
      var n := Oldest(seen);
      assert seen.Keys == (seen - {n}).Keys + {n};
      TrimKeepsTheNewest(seen - {n});
    }
  }

  /** Eviction ends exactly at the capacity and gives up only entries at least as old as every one it keeps. */
  lemma TrimEvictsOldest(seen: Cache)
    ensures var kept := TrimToCapacity(seen);
            && (if |seen| <= MAX_REPLAY_ENTRIES then kept == seen else |kept| == MAX_REPLAY_ENTRIES)
            && (forall n | n in kept :: n in seen && kept[n] == seen[n])
            && (forall n, k | n in seen && n !in kept && k in kept :: seen[n] <= kept[k])
  {
    TrimmedSize(seen);
    TrimKeepsTheNewest(seen);
  }

  // ---------------------------------------------------------------- one frame

  /** The checks made before any state is touched. */
  function Malformed(f: Frame, kind: Str, now: U64): Option<VerifyError> {
    if (f.version != FRAME_VERSION && f.version != FRAME_VERSION_V2) || f.kind != kind then Some(BadVersionOrKind)
    else if f.version == FRAME_VERSION_V2 && f.sequence.None? then Some(MissingSequence)
    else if f.version == FRAME_VERSION && f.sequence.Some? then Some(UnexpectedSequence)
    else if Utf8Length(f.mac) > MAX_MAC_B64_LEN then Some(MacTooLong)
    else if Utf8Length(f.nonce) < 16 || Utf8Length(f.nonce) > 128 then Some(BadNonceLength)
    else if !InWindow(f.timestampMs, now, MAX_CLOCK_SKEW_MS, MAX_CLOCK_SKEW_MS) then Some(StaleTimestamp)
    else None
  }

  /** What the canonical text and the MAC say about a frame, whatever the state. */
  datatype Verdict = NoCanonicalText | TextTooLarge | MacUnreadable | MacWrong | Authentic

  function Judge(check: MacCheck, f: Frame): Verdict {
    var canonical := Canonicalize(MacContent(f));
    if canonical.Err? then NoCanonicalText
    else if Utf8Length(canonical.value) > MAX_PAYLOAD_CANONICAL_BYTES then TextTooLarge
    else match check(canonical.value, f.mac)
      case BadEncoding => MacUnreadable
      case Mismatch => MacWrong
      case Matches => Authentic
  }

  /** The checks made against the state, with the rate window already pruned. */
  function Refused(v: Verdict, s: AuthState, f: Frame): Option<VerifyError> {
    if |s.recentAccepts| >= MAX_REQUESTS_PER_WINDOW then Some(RateLimited)
    else if f.nonce in s.seenNonces then Some(NonceReplayed)
    else match v
      case NoCanonicalText => Some(NotCanonical)
      case TextTooLarge => Some(PayloadTooLarge)
      case MacUnreadable => Some(MacNotBase64)
      case MacWrong => Some(MacMismatch)
      case Authentic =>
        if f.version == FRAME_VERSION_V2 && f.sequence.Some? && s.lastSequence.Some?
           && f.sequence.value <= s.lastSequence.value then Some(SequenceNotIncreasing)
        else None
  }

  ghost function Accepted(s: AuthState, f: Frame, now: U64): AuthState {
    AuthState(
      TrimToCapacity(Accept(s.seenNonces, Use(f.nonce, f.timestampMs), now, MAX_CLOCK_SKEW_MS)),
      if f.version == FRAME_VERSION_V2 && f.sequence.Some? then f.sequence else s.lastSequence,
      s.recentAccepts + [now])
  }

  datatype Step = Step(state: AuthState, error: Option<VerifyError>)

  ghost function VerifyStep(v: Verdict, s: AuthState, f: Frame, kind: Str, now: U64): Step {
    var malformed := Malformed(f, kind, now);
    if malformed.Some? then Step(s, malformed)
    else
      var pruned := s.(recentAccepts := PruneRateWindow(s.recentAccepts, now));
      var refused := Refused(v, pruned, f);
      if refused.Some? then Step(pruned, refused) else Step(Accepted(pruned, f, now), None)
  }

  class IpcAuthenticator {
    const check: MacCheck
    var seenNonces: Cache
    var lastSequence: Option<nat>
    var recentAccepts: seq<U64>

    ghost function State(): AuthState
      reads this
    {
      AuthState(seenNonces, lastSequence, recentAccepts)
    }

    constructor (check: MacCheck)
      ensures this.check == check && State() == INITIAL
    {
      this.check := check;
      seenNonces, lastSequence, recentAccepts := map[], None, [];
    }

    method VerifyRequest(f: Frame, now: U64) returns (payload: Option<Value>, error: Option<VerifyError>)
      modifies this
      ensures Step(State(), error) == VerifyStep(Judge(check, f), old(State()), f, REQUEST, now)
      ensures payload == if error.None? then Some(f.payload) else None
    {
      error := Verify(f, REQUEST, now);
      payload := if error.None? then Some(f.payload) else None;
    }

    method Verify(f: Frame, kind: Str, now: U64) returns (error: Option<VerifyError>)
      modifies this
      ensures Step(State(), error) == VerifyStep(Judge(check, f), old(State()), f, kind, now)
    {
      error := CheckShape(f, kind, now);
      if error.Some? {
        return;
      }
      DropOldAccepts(now);
      if |recentAccepts| >= MAX_REQUESTS_PER_WINDOW {
        return Some(RateLimited);
      }
      if f.nonce in seenNonces {
        return Some(NonceReplayed);
      }
      var verdict := JudgeFrame(f);
      match verdict {
        case NoCanonicalText => return Some(NotCanonical);
        case TextTooLarge => return Some(PayloadTooLarge);
        case MacUnreadable => return Some(MacNotBase64);
        case MacWrong => return Some(MacMismatch);
        case Authentic =>
      }
      if f.version == FRAME_VERSION_V2 && lastSequence.Some? && f.sequence.value <= lastSequence.value {
        return Some(SequenceNotIncreasing);
      }
      RecordAcceptance(f, now);
      return None;
    }

    /** The sequence, the nonce and the time of an accepted frame. */
    method RecordAcceptance(f: Frame, now: U64)
      modifies this
      ensures State() == Accepted(old(State()), f, now)
    {
      if f.version == FRAME_VERSION_V2 && f.sequence.Some? {
        lastSequence := f.sequence;
      }
      seenNonces := seenNonces[f.nonce := f.timestampMs];
      recentAccepts := recentAccepts + [now];
      Prune(now);
    }

    /** The checks made before any state is touched. */
    method CheckShape(f: Frame, kind: Str, now: U64) returns (error: Option<VerifyError>)
      ensures error == Malformed(f, kind, now)
    {
      if (f.version != FRAME_VERSION && f.version != FRAME_VERSION_V2) || f.kind != kind {
        return Some(BadVersionOrKind);
      }
      if f.version == FRAME_VERSION_V2 && f.sequence.None? {
        return Some(MissingSequence);
      }
      if f.version == FRAME_VERSION && f.sequence.Some? {
        return Some(UnexpectedSequence);
      }
      if Utf8Length(f.mac) > MAX_MAC_B64_LEN {
        return Some(MacTooLong);
      }
      if Utf8Length(f.nonce) < 16 || Utf8Length(f.nonce) > 128 {
        return Some(BadNonceLength);
      }
      if f.timestampMs > SaturatingAdd(now, MAX_CLOCK_SKEW_MS)
        || SaturatingSub(now, f.timestampMs) > MAX_CLOCK_SKEW_MS {
        return Some(StaleTimestamp);
      }
      return None;
    }

    method JudgeFrame(f: Frame) returns (verdict: Verdict)
      ensures verdict == Judge(check, f)
    {
      var canonical := Canonicalize(MacContent(f));
      if canonical.Err? {
        return NoCanonicalText;
      }
      if Utf8Length(canonical.value) > MAX_PAYLOAD_CANONICAL_BYTES {
        return TextTooLarge;
      }
      match check(canonical.value, f.mac) {
        case BadEncoding => return MacUnreadable;
        case Mismatch => return MacWrong;
        case Matches => return Authentic;
      }
    }

    method DropOldAccepts(now: U64)
      modifies `recentAccepts
      ensures recentAccepts == PruneRateWindow(old(recentAccepts), now)
    {
      while recentAccepts != [] && SaturatingSub(now, recentAccepts[0]) > RATE_LIMIT_WINDOW_MS
        invariant PruneRateWindow(recentAccepts, now) == PruneRateWindow(old(recentAccepts), now)
        decreases |recentAccepts|
      {
        recentAccepts := recentAccepts[1..];
      }
    }

    method Prune(now: U64)
      modifies `seenNonces
      ensures seenNonces == TrimToCapacity(Retain(old(seenNonces), now, MAX_CLOCK_SKEW_MS))
    {
      seenNonces := Retain(seenNonces, now, MAX_CLOCK_SKEW_MS);
      while |seenNonces| > MAX_REPLAY_ENTRIES
        invariant TrimToCapacity(seenNonces) == TrimToCapacity(Retain(old(seenNonces), now, MAX_CLOCK_SKEW_MS))
        decreases |seenNonces|
      {
        var oldest := FindOldest();
        OldestIsUnique(seenNonces, oldest, Oldest(seenNonces));
        assert seenNonces.Keys == (seenNonces - {oldest}).Keys + {oldest};
        seenNonces := seenNonces - {oldest};
      }
    }

    method FindOldest() returns (oldest: Str)
      requires seenNonces != map[]
      ensures IsOldest(seenNonces, oldest)
    {
      var rest := seenNonces.Keys;
      oldest :| oldest in rest;
      rest := rest - {oldest};
      while rest != {}
        invariant oldest in seenNonces && oldest !in rest && rest <= seenNonces.Keys
        invariant forall k | k in seenNonces && k != oldest && k !in rest ::
                    seenNonces[oldest] < seenNonces[k] || (seenNonces[oldest] == seenNonces[k] && Utf8Less(oldest, k))
        decreases |rest|
      {
        var n :| n in rest;
        ghost var before := oldest;
        if seenNonces[n] < seenNonces[oldest] || (seenNonces[n] == seenNonces[oldest] && Utf8Less(n, oldest)) {
          forall k | k in seenNonces && k != n && k !in rest && seenNonces[k] == seenNonces[n] ensures Utf8Less(n, k) {
            if k != before {
              Utf8LessIsTransitive(n, before, k);
            }
          }
          oldest := n;
        } else {
          Utf8LessIsTotal(n, oldest);
        }
        rest := rest - {n};
      }
    }
  }

  /** A refused frame leaves the replay and sequence state alone and only drops expired acceptances. */
  lemma RefusalKeepsState(v: Verdict, s: AuthState, f: Frame, kind: Str, now: U64)
    requires VerifyStep(v, s, f, kind, now).error.Some?
    ensures var after := VerifyStep(v, s, f, kind, now).state;
            && after.seenNonces == s.seenNonces && after.lastSequence == s.lastSequence
            && (after.recentAccepts == s.recentAccepts || after.recentAccepts == PruneRateWindow(s.recentAccepts, now))
  {
  }
}
