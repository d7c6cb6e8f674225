/**
 When a frame is accepted, exactly, after any run of the channel; and that an orderly stream of requests
 loses none of them.
 */
module IpcAcceptance {
  import opened Text
  import opened Wrappers
  import opened ReplayCache
  import opened CanonicalJson
  import opened IpcFrames
  import opened IpcAuth
  import opened IpcChannel
  import opened IpcReplays

  // ---------------------------------------------------------------- one frame

  /** The shape of a request: v1 without and v2 with a sequence, the lengths in range, the time within 30 s. */
  predicate IsFreshRequest(f: Frame, now: U64) {
    && f.kind == REQUEST
    && ((f.version == FRAME_VERSION && f.sequence.None?) || (f.version == FRAME_VERSION_V2 && f.sequence.Some?))
    && Utf8Length(f.mac) <= 64 && 16 <= Utf8Length(f.nonce) <= 128
    && f.timestampMs <= now + 30_000 && now <= f.timestampMs + 30_000
  }

  lemma MalformedExactly(f: Frame, now: U64)
    ensures Malformed(f, REQUEST, now).None? <==> IsFreshRequest(f, now)
  {
  }

  /** The frame's text fits and its MAC matches it. */
  predicate IsGenuine(check: MacCheck, f: Frame) {
    var text := Canonicalize(MacContent(f));
    text.Ok? && Utf8Length(text.value) <= 64 * 1024 && check(text.value, f.mac).Matches?
  }

  lemma JudgedExactly(check: MacCheck, f: Frame)
    ensures Judge(check, f).Authentic? <==> IsGenuine(check, f)
  {
  }

  /** Fewer than 256 acceptances lie within the second before. */
  predicate HasRoom(acceptedAt: seq<U64>, now: U64) {
    |acceptedAt| < 256 || acceptedAt[|acceptedAt| - 256] + 1_000 < now
  }

  lemma RoomExactly(v: Verdict, c: Channel, f: Frame, now: U64)
    requires RateKept(c) && c.clock <= now && Malformed(f, REQUEST, now).None?
    ensures HasRoom(c.acceptedAt, now) <==> VerifyStep(v, c.auth, f, REQUEST, now).error != Some(RateLimited)
  {
    RateLimitedExactly(v, c, f, now);
  }

  predicate Good(c: Channel) {
    RateKept(c) && LastIsGreatest(c.accepted, c.auth.lastSequence)
  }

  /** The one condition under which a frame is accepted. */
  predicate Deserves(check: MacCheck, c: Channel, f: Frame, now: U64) {
    && IsFreshRequest(f, now) && IsGenuine(check, f)
    && HasRoom(c.acceptedAt, now) && f.nonce !in c.auth.seenNonces && AfterAllAccepted(c.accepted, f)
  }

  lemma AcceptedIfDeserved(check: MacCheck, c: Channel, f: Frame, now: U64)
    requires Good(c) && c.clock <= now
    ensures VerifyStep(Judge(check, f), c.auth, f, REQUEST, now).error.None? <==> Deserves(check, c, f, now)
  {
    MalformedExactly(f, now);
    JudgedExactly(check, f);
    if Malformed(f, REQUEST, now).None? {
      RoomExactly(Judge(check, f), c, f, now);
      AfterTheLast(c.accepted, c.auth.lastSequence, f);
      RefusedExactly(Judge(check, f), c.auth, f, now);
    }
  }

  lemma RefusedExactly(v: Verdict, s: AuthState, f: Frame, now: U64)
    requires Malformed(f, REQUEST, now).None?
    ensures var error := VerifyStep(v, s, f, REQUEST, now).error;
            error.None? <==>
              && error != Some(RateLimited) && f.nonce !in s.seenNonces && v.Authentic?
              && (f.version == FRAME_VERSION_V2 && s.lastSequence.Some? ==> s.lastSequence.value < f.sequence.value)
  {
  }

  // ---------------------------------------------------------------- whole runs

  lemma ReceiveKeepsLast(check: MacCheck, c: Channel, f: Frame, now: U64)
    requires Good(c) && c.clock <= now
    ensures LastIsGreatest(Receive(Judge(check, f), c, f, now).accepted, Receive(Judge(check, f), c, f, now).auth.lastSequence)
  {
    AcceptedIfDeserved(check, c, f, now);
    if Deserves(check, c, f, now) {
      LastOfMore(c.accepted, c.auth.lastSequence, f);
    } else {
      RefusalKeepsState(Judge(check, f), c.auth, f, REQUEST, now);
    }
  }

  lemma NextIsGood(sign: Signer, check: MacCheck, c: Channel, e: Event)
    requires Good(c) && (e.Deliver? ==> c.clock <= e.now)
    ensures Good(Next(sign, check, c, e))
  {
    NextKeepsRate(sign, check, c, e);
    if e.Deliver? {
      ReceiveKeepsLast(check, c, e.frame, e.now);
    }
  }

  lemma {:induction false} RunIsGood(sign: Signer, check: MacCheck, start: nat, events: seq<Event>)
    requires ClockMoves(events)
    ensures Good(Run(sign, check, start, events))
    decreases |events|
  {
    if events != [] {
      var before, e := events[..|events| - 1], events[|events| - 1];
      RunIsGood(sign, check, start, before);
      if e.Deliver? {
        ClockBeforeLast(sign, check, start, events);
      }
      NextIsGood(sign, check, Run(sign, check, start, before), e);
    }
  }

  /** After every run whose clock does not go back, a frame is accepted if and only if it is a fresh, genuine
      request, fewer than 256 were accepted in the second before, its nonce is not remembered and, for v2, its
      sequence exceeds that of every v2 frame accepted so far. */
  lemma AcceptedExactly(sign: Signer, check: MacCheck, start: nat, events: seq<Event>, f: Frame, now: U64)
    requires ClockMoves(events + [Deliver(f, now)])
    ensures var c := Run(sign, check, start, events);
            var after := Run(sign, check, start, events + [Deliver(f, now)]);
            after.accepted == if Deserves(check, c, f, now) then c.accepted + [f] else c.accepted
  {
    var all := events + [Deliver(f, now)];
    assert all[..|all| - 1] == events && all[|all| - 1] == Deliver(f, now);
    assert forall i | 0 <= i < |events| :: all[i] == events[i];
    RunIsGood(sign, check, start, events);
    ClockBeforeLast(sign, check, start, all);
    AcceptedIfDeserved(check, Run(sign, check, start, events), f, now);
  }

  /** And which error a refused frame meets: its shape first, then the rate, the nonce, its text and MAC, and
      last the sequence. */
  lemma RefusedForExactly(check: MacCheck, c: Channel, f: Frame, now: U64)
    requires Good(c) && c.clock <= now && IsFreshRequest(f, now)
    ensures var error := VerifyStep(Judge(check, f), c.auth, f, REQUEST, now).error;
            && (error == Some(RateLimited) <==> !HasRoom(c.acceptedAt, now))
            && (error == Some(NonceReplayed) <==> HasRoom(c.acceptedAt, now) && f.nonce in c.auth.seenNonces)
            && (error == Some(SequenceNotIncreasing) <==>
                  && HasRoom(c.acceptedAt, now) && f.nonce !in c.auth.seenNonces && IsGenuine(check, f)
                  && !AfterAllAccepted(c.accepted, f))
            && (error in {Some(NotCanonical), Some(PayloadTooLarge), Some(MacNotBase64), Some(MacMismatch)} <==>
                  HasRoom(c.acceptedAt, now) && f.nonce !in c.auth.seenNonces && !IsGenuine(check, f))
  {
    MalformedExactly(f, now);
    JudgedExactly(check, f);
    RoomExactly(Judge(check, f), c, f, now);
    AfterTheLast(c.accepted, c.auth.lastSequence, f);
    ErrorsInOrder(Judge(check, f), c.auth, f, now);
  }

  lemma ErrorsInOrder(v: Verdict, s: AuthState, f: Frame, now: U64)
    requires Malformed(f, REQUEST, now).None?
    ensures var error := VerifyStep(v, s, f, REQUEST, now).error;
            && (error == Some(NonceReplayed) <==> error != Some(RateLimited) && f.nonce in s.seenNonces)
            && (error == Some(SequenceNotIncreasing) <==>
                  && error != Some(RateLimited) && f.nonce !in s.seenNonces && v.Authentic?
                  && f.version == FRAME_VERSION_V2 && s.lastSequence.Some? && s.lastSequence.value >= f.sequence.value)
            && (error in {Some(NotCanonical), Some(PayloadTooLarge), Some(MacNotBase64), Some(MacMismatch)} <==>
                  error != Some(RateLimited) && f.nonce !in s.seenNonces && !v.Authentic?)
  {
  }

  /** A nonce is only ever remembered from a frame that was accepted with it. */
  lemma RememberedWasAccepted(sign: Signer, check: MacCheck, start: nat, events: seq<Event>, nonce: Str)
    requires ClockMoves(events) && nonce in Run(sign, check, start, events).auth.seenNonces
    ensures exists g <- Run(sign, check, start, events).accepted :: g.nonce == nonce
  {
    ReplayNeedsFlood(sign, check, start, events);
    var c := Run(sign, check, start, events);
    var u := Use(nonce, c.auth.seenNonces[nonce]);
    assert u in UsesOf(c.accepted);
    var i :| 0 <= i < |UsesOf(c.accepted)| && UsesOf(c.accepted)[i] == u;
    assert c.accepted[i] in c.accepted && c.accepted[i].nonce == nonce;
  }

  // ---------------------------------------------------------------- an orderly stream

  /** Signing and checking belong together. */
  ghost predicate Fits(sign: Signer, check: MacCheck) {
    forall t: Str :: check(t, sign(t)).Matches? && Utf8Length(sign(t)) <= 64
  }

  /** Everything created is a signed v2 request, under ascending sequences. */
  predicate CreatedSigned(sign: Signer, c: Channel) {
    CreatedInOrder(c) && forall g <- c.created :: IsSigned(sign, g)
  }

  predicate IsSigned(sign: Signer, f: Frame) {
    var text := Canonicalize(MacContent(f));
    f.kind == REQUEST && f.version == FRAME_VERSION_V2 && f.sequence.Some? && text.Ok? && f.mac == sign(text.value)
  }

  /** A created frame carries what it was created for, under the signature of its own text. */
  lemma CreatedExactly(sign: Signer, sequence: nat, payload: Value, nonce: Str, now: U64)
    ensures var f := Numbered(sign, sequence, REQUEST, payload, nonce, now);
            f.Some? ==>
              && IsSigned(sign, f.value) && f.value.sequence == Some(sequence)
              && f.value.payload == payload && f.value.nonce == nonce && f.value.timestampMs == now
  {
    var unsigned := Frame(FRAME_VERSION_V2, REQUEST, nonce, now, Some(sequence), payload, []);
    var f := Numbered(sign, sequence, REQUEST, payload, nonce, now);
    if f.Some? {
      assert MacMembers(f.value) == MacMembers(unsigned);
    }
  }

  lemma NextIsSigned(sign: Signer, check: MacCheck, c: Channel, e: Event)
    requires CreatedSigned(sign, c)
    ensures CreatedSigned(sign, Next(sign, check, c, e))
  {
    if e.Create? {
      CreateIsSigned(sign, check, c, e);
    } else {
      OthersCreateNothing(sign, check, c, e);
      SameCreated(sign, c, Next(sign, check, c, e));
    }
  }

  lemma CreateIsSigned(sign: Signer, check: MacCheck, c: Channel, e: Event)
    requires CreatedSigned(sign, c) && e.Create?
    ensures CreatedSigned(sign, Next(sign, check, c, e))
  {
    var f := Numbered(sign, c.sequence + 1, REQUEST, e.payload, e.nonce, e.createdAt);
    CreatedExactly(sign, c.sequence + 1, e.payload, e.nonce, e.createdAt);
    SentIsSigned(sign, c, f);
    assert Next(sign, check, c, e) == Sent(c, f);
  }

  lemma OthersCreateNothing(sign: Signer, check: MacCheck, c: Channel, e: Event)
    requires !e.Create?
    ensures var after := Next(sign, check, c, e);
            && after.created == c.created && after.sequence == c.sequence
            && (after.responses == c.responses
                || exists f: Frame :: f.kind == RESPONSE && after.responses == c.responses + [f])
  {
    if e.Respond? && e.response.kind == RESPONSE {
      assert Next(sign, check, c, e).responses == c.responses + [e.response];
    }
  }

  lemma SameCreated(sign: Signer, c: Channel, after: Channel)
    requires CreatedSigned(sign, c) && after.created == c.created && after.sequence == c.sequence
    requires after.responses == c.responses || exists f: Frame :: f.kind == RESPONSE && after.responses == c.responses + [f]
    ensures CreatedSigned(sign, after)
  {
  }

  lemma SentIsSigned(sign: Signer, c: Channel, f: Option<Frame>)
    requires CreatedSigned(sign, c)
    requires f.Some? ==> IsSigned(sign, f.value) && f.value.sequence == Some(c.sequence + 1)
    ensures CreatedSigned(sign, Sent(c, f))
  {
    if f.Some? {
      NumberedContinues(c, f.value);
    }
  }

  lemma {:induction false} RunIsSigned(sign: Signer, check: MacCheck, start: nat, events: seq<Event>)
    ensures CreatedSigned(sign, Run(sign, check, start, events))
    decreases |events|
  {
    if events != [] {
      RunIsSigned(sign, check, start, events[..|events| - 1]);
      NextIsSigned(sign, check, Run(sign, check, start, events[..|events| - 1]), events[|events| - 1]);
    }
  }

  /** What the network does with the next frame in an orderly stream: it brings a frame created after all
      those accepted, in time, under a nonce of its own, with a text that fits, below the rate. */
  ghost predicate InTurn(c: Channel, f: Frame, now: U64) {
    && (exists k | 0 <= k < |c.created| ::
          c.created[k] == f && forall g <- c.accepted :: exists j | 0 <= j < k :: c.created[j] == g)
    && 16 <= Utf8Length(f.nonce) <= 128 && (forall g <- c.accepted :: g.nonce != f.nonce)
    && f.timestampMs <= now + 30_000 && now <= f.timestampMs + 30_000
    && (Canonicalize(MacContent(f)).Ok? ==> Utf8Length(Canonicalize(MacContent(f)).value) <= 64 * 1024)
    && HasRoom(c.acceptedAt, now)
  }

  ghost predicate Orderly(sign: Signer, check: MacCheck, start: nat, events: seq<Event>)
    decreases |events|
  {
    events == []
    || (var before, e := events[..|events| - 1], events[|events| - 1];
        && Orderly(sign, check, start, before)
        && (e.Deliver? ==> InTurn(Run(sign, check, start, before), e.frame, e.now)))
  }

  function Deliveries(events: seq<Event>): seq<Frame> {
    if events == [] then []
    else
      var e := events[|events| - 1];
      Deliveries(events[..|events| - 1]) + if e.Deliver? then [e.frame] else []
  }

  lemma InTurnIsAfterAll(sign: Signer, c: Channel, f: Frame, now: U64)
    requires CreatedSigned(sign, c) && InTurn(c, f, now)
    ensures AfterAllAccepted(c.accepted, f) && f in c.created
  {
    var k :| 0 <= k < |c.created| && c.created[k] == f && forall g <- c.accepted :: exists j | 0 <= j < k :: c.created[j] == g;
    forall g | g in c.accepted ensures g.sequence.Some? && g.sequence.value < f.sequence.value {
      var j :| 0 <= j < k && c.created[j] == g;
    }
  }

  lemma InTurnIsDeserved(sign: Signer, check: MacCheck, start: nat, events: seq<Event>, f: Frame, now: U64)
    requires Fits(sign, check) && ClockMoves(events) && InTurn(Run(sign, check, start, events), f, now)
    ensures Deserves(check, Run(sign, check, start, events), f, now)
  {
    var c := Run(sign, check, start, events);
    RunIsSigned(sign, check, start, events);
    InTurnIsAfterAll(sign, c, f, now);
    assert f.mac == sign(Canonicalize(MacContent(f)).value);
    if f.nonce in c.auth.seenNonces {
      RememberedWasAccepted(sign, check, start, events, f.nonce);
    }
  }

  /** Requests that arrive in the order of their creation, in time, with nonces of their own and below the
      rate are all accepted, in that order, whatever else is created or answered in between. */
  lemma {:induction false} OrderlyStreamIsAccepted(sign: Signer, check: MacCheck, start: nat, events: seq<Event>)
    requires Fits(sign, check) && ClockMoves(events) && Orderly(sign, check, start, events)
    ensures Run(sign, check, start, events).accepted == Deliveries(events)
    decreases |events|
  {
    if events != [] {
      var before, e := events[..|events| - 1], events[|events| - 1];
      assert events == before + [e];
      OrderlyStreamIsAccepted(sign, check, start, before);
      if e.Deliver? {
        InTurnIsDeserved(sign, check, start, before, e.frame, e.now);
        AcceptedExactly(sign, check, start, before, e.frame, e.now);
      } else {
        assert Deliveries(before) + [] == Deliveries(before);
      }
    }
  }
}
