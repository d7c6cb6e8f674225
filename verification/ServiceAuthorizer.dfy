/**
 The elevated service's decision whether to terminate a process for the exam core. Signatures,
 key decoding and the device-id hash are parameters (`Keys`); the replay cache is `ReplayCache`.
 */
module ServiceAuthorizer {
  import opened Text
  import opened ReplayCache
  import opened Wrappers

  const REQUEST_WINDOW_MS: U64 := 30_000
  const FUTURE_SKEW_MS: U64 := 5_000
  const ALGORITHM: Str := Ascii("Ed25519")
  const SCOPE: Str := Ascii("elevated-remediation")

  datatype Policy = Policy(
    policyVersion: Str,
    examId: Str,
    expiresAtMs: U64,
    blockedProcesses: seq<Str>,
    allowedProcesses: seq<Str>,
    remoteProcesses: seq<Str>,
    screenCaptureProcesses: seq<Str>,
    virtualMachineProcesses: seq<Str>,
    debugProcesses: seq<Str>,
    allowVm: bool)

  datatype Receipt = Receipt(examId: Str, policyVersion: Str, deviceId: Str, scope: Str, expiresAtMs: U64)

  datatype Envelope<T> = Envelope(algorithm: Str, keyId: Str, body: T, signature: Str)

  datatype Request = Request(
    version: nat,
    nonce: Str,
    timestampMs: U64,
    targetPid: nat,
    devicePublicKey: Str,
    policy: Envelope<Policy>,
    receipt: Envelope<Receipt>,
    signature: Str)

  datatype SignatureVerdict = Genuine | UntrustedKey | BadSignature

  /** The cryptography: server signatures, the device id of a public key, and the device's signature
      over the whole request without its signature. */
  datatype Keys = Keys(
    policySigned: Envelope<Policy> -> SignatureVerdict,
    receiptSigned: Envelope<Receipt> -> SignatureVerdict,
    deviceIdOf: Str -> Option<Str>,
    requestSigned: Request -> bool)

  datatype ServiceError =
    | BadVersionOrTarget | BadNonce | StaleTimestamp | NonceReplayed
    | PolicySignature(verdict: SignatureVerdict) | ReceiptSignature(v: SignatureVerdict) | UnsupportedAlgorithm
    | BindingInvalidOrExpired | BadDeviceKey | DeviceMismatch | BadRequestSignature
    | ExplicitlyAllowed | NotProhibited

  // ---------------------------------------------------------------- process names

  function LowerUnit(u: Unit): Unit {
    if 0x41 <= u <= 0x5A then u + 0x20 else u
  }

  function Lower(s: Str): (r: Str)
    ensures |r| == |s| && forall i | 0 <= i < |s| :: r[i] == LowerUnit(s[i])
  {
    seq(|s|, i requires 0 <= i < |s| => LowerUnit(s[i]))
  }

  function TrimStart(s: Str): Str {
    if s != [] && IsWhitespace(s[0]) then TrimStart(s[1..]) else s
  }

  function TrimEnd(s: Str): Str {
    if s != [] && IsWhitespace(s[|s| - 1]) then TrimEnd(s[..|s| - 1]) else s
  }

  function ProcessName(actual: Str): Str {
    Lower(TrimEnd(TrimStart(actual)))
  }

  /** Some name in the list is the process, whatever its ASCII case. */
  predicate Names(names: seq<Str>, process: Str) {
    exists i | 0 <= i < |names| :: Lower(names[i]) == process
  }

  predicate Prohibited(p: Policy, process: Str) {
    || Names(p.blockedProcesses, process) || Names(p.remoteProcesses, process)
    || Names(p.screenCaptureProcesses, process) || Names(p.debugProcesses, process)
    || (!p.allowVm && Names(p.virtualMachineProcesses, process))
  }

  // ---------------------------------------------------------------- the gates

  /** What the service's documentation requires of every termination request. */
  predicate PassesEveryGate(keys: Keys, seen: Cache, r: Request, actual: Str, now: U64, servicePid: nat) {
    && r.version == 1 && r.targetPid != 0 && r.targetPid != servicePid
    && 24 <= Utf8Length(r.nonce) <= 128
    && InWindow(r.timestampMs, now, REQUEST_WINDOW_MS, FUTURE_SKEW_MS) && r.nonce !in seen
    && keys.policySigned(r.policy).Genuine? && keys.receiptSigned(r.receipt).Genuine?
    && r.policy.algorithm == r.receipt.algorithm == ALGORITHM
    && r.receipt.body.examId == r.policy.body.examId && r.receipt.body.policyVersion == r.policy.body.policyVersion
    && r.receipt.body.scope == SCOPE && now < r.receipt.body.expiresAtMs && now < r.policy.body.expiresAtMs
    && keys.deviceIdOf(r.devicePublicKey) == Some(r.receipt.body.deviceId)
    && keys.requestSigned(r)
    && !Names(r.policy.body.allowedProcesses, ProcessName(actual))
    && Prohibited(r.policy.body, ProcessName(actual))
  }

  class Authorizer {
    const keys: Keys
    var seenNonces: Cache

    constructor (keys: Keys)
      ensures this.keys == keys && seenNonces == map[]
    {
      this.keys := keys;
      seenNonces := map[];
    }

    method AuthorizeTermination(r: Request, actual: Str, now: U64, servicePid: nat) returns (error: Option<ServiceError>)
      modifies this
      ensures error.None? <==> PassesEveryGate(keys, old(seenNonces), r, actual, now, servicePid)
      ensures seenNonces ==
        if error.None? then Accept(old(seenNonces), Use(r.nonce, r.timestampMs), now, REQUEST_WINDOW_MS)
        else old(seenNonces)
      ensures r.nonce in old(seenNonces) ==>
        error in {Some(BadVersionOrTarget), Some(BadNonce), Some(StaleTimestamp), Some(NonceReplayed)}
    {
      if r.version != 1 || r.targetPid == 0 || r.targetPid == servicePid {
        return Some(BadVersionOrTarget);
      }
      if Utf8Length(r.nonce) < 24 || Utf8Length(r.nonce) > 128 {
        return Some(BadNonce);
      }
      if r.timestampMs > SaturatingAdd(now, FUTURE_SKEW_MS) || SaturatingSub(now, r.timestampMs) > REQUEST_WINDOW_MS {
        return Some(StaleTimestamp);
      }
      if r.nonce in seenNonces {
        return Some(NonceReplayed);
      }
      error := CheckSignatures(r, now);
      if error.Some? {
        return;
      }
      error := CheckTarget(r.policy.body, actual);
      if error.Some? {
        return;
      }
      seenNonces := seenNonces[r.nonce := r.timestampMs];
      seenNonces := Retain(seenNonces, now, REQUEST_WINDOW_MS);
    }

    method CheckSignatures(r: Request, now: U64) returns (error: Option<ServiceError>)
      ensures error.None? <==>
        && keys.policySigned(r.policy).Genuine? && keys.receiptSigned(r.receipt).Genuine?
        && r.policy.algorithm == r.receipt.algorithm == ALGORITHM
        && r.receipt.body.examId == r.policy.body.examId && r.receipt.body.policyVersion == r.policy.body.policyVersion
        && r.receipt.body.scope == SCOPE && now < r.receipt.body.expiresAtMs && now < r.policy.body.expiresAtMs
        && keys.deviceIdOf(r.devicePublicKey) == Some(r.receipt.body.deviceId)
        && keys.requestSigned(r)
    {
      if !keys.policySigned(r.policy).Genuine? {
        return Some(PolicySignature(keys.policySigned(r.policy)));
      }
      if !keys.receiptSigned(r.receipt).Genuine? {
        return Some(ReceiptSignature(keys.receiptSigned(r.receipt)));
      }
      if r.policy.algorithm != ALGORITHM || r.receipt.algorithm != ALGORITHM {
        return Some(UnsupportedAlgorithm);
      }
      var policy, receipt := r.policy.body, r.receipt.body;
      if receipt.examId != policy.examId || receipt.policyVersion != policy.policyVersion || receipt.scope != SCOPE
        || receipt.expiresAtMs <= now || policy.expiresAtMs <= now {
        return Some(BindingInvalidOrExpired);
      }
      var deviceId := keys.deviceIdOf(r.devicePublicKey);
      if deviceId.None? {
        return Some(BadDeviceKey);
      }
      if deviceId.value != receipt.deviceId {
        return Some(DeviceMismatch);
      }
      if !keys.requestSigned(r) {
        return Some(BadRequestSignature);
      }
      return None;
    }

    method CheckTarget(policy: Policy, actual: Str) returns (error: Option<ServiceError>)
      ensures error == if Names(policy.allowedProcesses, ProcessName(actual)) then Some(ExplicitlyAllowed)
                       else if !Prohibited(policy, ProcessName(actual)) then Some(NotProhibited)
                       else None
    {
      var process := ProcessName(actual);
      for i := 0 to |policy.allowedProcesses|
        invariant forall k | 0 <= k < i :: Lower(policy.allowedProcesses[k]) != process
      {
        if Lower(policy.allowedProcesses[i]) == process {
          return Some(ExplicitlyAllowed);
        }
      }
      var blocked := {};
      blocked := LowerNames(blocked, policy.blockedProcesses);
      blocked := LowerNames(blocked, policy.remoteProcesses);
      blocked := LowerNames(blocked, policy.screenCaptureProcesses);
      blocked := LowerNames(blocked, policy.debugProcesses);
      if !policy.allowVm {
        blocked := LowerNames(blocked, policy.virtualMachineProcesses);
      }
      if process !in blocked {
        return Some(NotProhibited);
      }
      return None;
    }

    /** The set extended by every name of the list in lower case. */
    method LowerNames(base: set<Str>, names: seq<Str>) returns (all: set<Str>)
      ensures forall p :: p in all <==> p in base || Names(names, p)
    {
      all := base;
      for i := 0 to |names|
        invariant forall p :: p in all <==> p in base || exists k | 0 <= k < i :: Lower(names[k]) == p
      {
        all := all + {Lower(names[i])};
      }
    }
  }

  // ---------------------------------------------------------------- whole runs

  datatype Call = Call(request: Request, actual: Str, now: U64, servicePid: nat)

  datatype Service = Service(seen: Cache, authorized: seq<Call>, clock: U64)

  function Serve(keys: Keys, s: Service, c: Call): Service {
    if PassesEveryGate(keys, s.seen, c.request, c.actual, c.now, c.servicePid) then
      Service(
        Accept(s.seen, Use(c.request.nonce, c.request.timestampMs), c.now, REQUEST_WINDOW_MS),
        s.authorized + [c],
        c.now)
    else s
  }

  function Run(keys: Keys, calls: seq<Call>): Service {
    if calls == [] then Service(map[], [], 0) else Serve(keys, Run(keys, calls[..|calls| - 1]), calls[|calls| - 1])
  }

  predicate ClockMoves(calls: seq<Call>) {
    forall i, j | 0 <= i < j < |calls| :: calls[i].now <= calls[j].now
  }

  function UsesOf(calls: seq<Call>): (uses: seq<Use>)
    ensures |uses| == |calls|
    ensures forall i | 0 <= i < |calls| :: uses[i] == Use(calls[i].request.nonce, calls[i].request.timestampMs)
  {
    seq(|calls|, i requires 0 <= i < |calls| => Use(calls[i].request.nonce, calls[i].request.timestampMs))
  }

  /** `clock` is the clock of the latest authorisation. */
  ghost predicate ReplaySafe(s: Service) {
    && NoRepeats(UsesOf(s.authorized))
    && Remembers(s.seen, UsesOf(s.authorized), s.clock, REQUEST_WINDOW_MS)
    && EntriesInWindow(s.seen, s.clock, REQUEST_WINDOW_MS, FUTURE_SKEW_MS)
    && s.clock == if s.authorized == [] then 0 else s.authorized[|s.authorized| - 1].now
  }

  lemma ServeIsReplaySafe(keys: Keys, s: Service, c: Call)
    requires ReplaySafe(s) && s.clock <= c.now
    ensures ReplaySafe(Serve(keys, s, c))
  {
    if PassesEveryGate(keys, s.seen, c.request, c.actual, c.now, c.servicePid) {
      var u := Use(c.request.nonce, c.request.timestampMs);
      AcceptIsSafe(s.seen, UsesOf(s.authorized), s.clock, u, c.now, REQUEST_WINDOW_MS, FUTURE_SKEW_MS);
      AcceptKeepsEntriesInWindow(s.seen, s.clock, u, c.now, REQUEST_WINDOW_MS, FUTURE_SKEW_MS);
      assert UsesOf(s.authorized + [c]) == UsesOf(s.authorized) + [u];
    }
  }

  /** No nonce and timestamp are authorised twice in any run although nonces are forgotten, and every
      nonce kept lies within 30 s behind and 5 s ahead of the latest authorising clock. */
  lemma {:induction false} NoReplayInAnyRun(keys: Keys, calls: seq<Call>)
    requires ClockMoves(calls)
    ensures ReplaySafe(Run(keys, calls))
    ensures forall c | c in Run(keys, calls).authorized :: c in calls
    decreases |calls|
  {
    if calls != [] {
      var before := calls[..|calls| - 1];
      NoReplayInAnyRun(keys, before);
      var s := Run(keys, before);
      if s.authorized != [] {
        var last := s.authorized[|s.authorized| - 1];
        assert last in before;
      }
      ServeIsReplaySafe(keys, s, calls[|calls| - 1]);
    }
  }

  /** The service never terminates itself, process 0 or a process its policy allows, even one it also blocks. */
  lemma {:induction false} NeverItselfNorAllowed(keys: Keys, calls: seq<Call>)
    ensures forall c | c in Run(keys, calls).authorized ::
              && c.request.targetPid != c.servicePid && c.request.targetPid != 0
              && !Names(c.request.policy.body.allowedProcesses, ProcessName(c.actual))
              && Prohibited(c.request.policy.body, ProcessName(c.actual))
    decreases |calls|
  {
    if calls != [] {
      NeverItselfNorAllowed(keys, calls[..|calls| - 1]);
    }
  }
}
