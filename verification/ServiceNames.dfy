/** Which processes a policy names: whatever the ASCII case, and whatever white space surrounds the name. */
module ServiceNames {
  import opened Text
  import opened ReplayCache
  import opened ServiceAuthorizer
  import opened Wrappers

  // ---------------------------------------------------------------- case

  predicate IsUpper(u: Unit) {
    0x41 <= u <= 0x5A
  }

  /** The same unit, or the two cases of one ASCII letter. */
  predicate SameLetter(a: Unit, b: Unit) {
    a == b || (IsUpper(a) && b == a + 0x20) || (IsUpper(b) && a == b + 0x20)
  }

  predicate EqualIgnoringCase(a: Str, b: Str) {
    |a| == |b| && forall i | 0 <= i < |a| :: SameLetter(a[i], b[i])
  }

  lemma LowerExactly(a: Str, b: Str)
    ensures Lower(a) == Lower(b) <==> EqualIgnoringCase(a, b)
  {
    if Lower(a) == Lower(b) {
      forall i | 0 <= i < |a| ensures SameLetter(a[i], b[i]) {
        assert LowerUnit(a[i]) == Lower(a)[i] == Lower(b)[i] == LowerUnit(b[i]);
      }
    }
    if EqualIgnoringCase(a, b) {
      forall i | 0 <= i < |a| ensures Lower(a)[i] == Lower(b)[i] {
        assert SameLetter(a[i], b[i]);
      }
    }
  }

  // ---------------------------------------------------------------- white space

  function Trim(s: Str): Str {
    TrimEnd(TrimStart(s))
  }

  predicate Blank(s: Str) {
    forall u <- s :: IsWhitespace(u)
  }

  lemma {:induction false} TrimStartExactly(s: Str) returns (k: nat)
    ensures k <= |s| && TrimStart(s) == s[k..] && Blank(s[..k])
    ensures TrimStart(s) != [] ==> !IsWhitespace(TrimStart(s)[0])
  {
    k := 0;
    if s != [] && IsWhitespace(s[0]) {
      var rest := TrimStartExactly(s[1..]);
      k := rest + 1;
      assert s[..k] == [s[0]] + s[1..][..rest] && s[k..] == s[1..][rest..];
    }
  }

  lemma {:induction false} TrimEndExactly(s: Str) returns (k: nat)
    ensures k <= |s| && TrimEnd(s) == s[..k] && Blank(s[k..])
    ensures TrimEnd(s) != [] ==> !IsWhitespace(TrimEnd(s)[|TrimEnd(s)| - 1])
    decreases |s|
  {
    k := |s|;
    if s != [] && IsWhitespace(s[|s| - 1]) {
      var n := |s| - 1;
      k := TrimEndExactly(s[..n]);
      assert s[k..] == s[..n][k..] + [s[n]] && s[..k] == s[..n][..k];
    }
  }

  lemma SliceOfSlice(s: Str, i: nat, k: nat)
    requires i <= |s| && k <= |s| - i
    ensures s[i..][..k] == s[i..i + k] && s[i..][k..] == s[i + k..]
  {
  }

  /** Trimming takes white space off both ends, all of it and nothing else. */
  lemma TrimExactly(s: Str)
    ensures exists i: nat, j: nat :: i <= j <= |s| && Trim(s) == s[i..j] && Blank(s[..i]) && Blank(s[j..])
    ensures Trim(s) != [] ==> !IsWhitespace(Trim(s)[0]) && !IsWhitespace(Trim(s)[|Trim(s)| - 1])
  {
    var i := TrimStartExactly(s);
    var k := TrimEndExactly(TrimStart(s));
    SliceOfSlice(s, i, k);
    assert Trim(s) == s[i..i + k] && Blank(s[..i]) && Blank(s[i + k..]);
  }

  lemma {:induction false} BlankInFront(front: Str, s: Str)
    requires Blank(front)
    ensures TrimStart(front + s) == TrimStart(s)
  {
    if front == [] {
      assert front + s == s;
    } else {
      assert front[0] in front && forall u <- front[1..] :: u in front;
      BlankInFront(front[1..], s);
      assert (front + s)[1..] == front[1..] + s;
    }
  }

  lemma {:induction false} BlankBehind(s: Str, back: Str)
    requires Blank(back)
    ensures TrimEnd(s + back) == TrimEnd(s)
    decreases |back|
  {
    if back == [] {
      assert s + back == s;
    } else {
      var n := |back| - 1;
      assert back[n] in back && forall u <- back[..n] :: u in back;
      BlankBehind(s, back[..n]);
      assert (s + back)[..|s + back| - 1] == s + back[..n];
    }
  }

  lemma {:induction false} StartOfBoth(s: Str, back: Str)
    requires Blank(back)
    ensures TrimStart(s + back) == TrimStart(s) + back || (TrimStart(s) == [] && Blank(TrimStart(s + back)))
  {
    if s == [] {
      assert s + back == back;
      var _ := TrimStartExactly(back);
    } else if IsWhitespace(s[0]) {
      StartOfBoth(s[1..], back);
      assert (s + back)[1..] == s[1..] + back;
    }
  }

  /** The process name is the same whatever white space surrounds it. */
  lemma SurroundingsDoNotMatter(front: Str, s: Str, back: Str)
    requires Blank(front) && Blank(back)
    ensures ProcessName(front + s + back) == ProcessName(s)
  {
    assert front + s + back == front + (s + back);
    BlankInFront(front, s + back);
    StartOfBoth(s, back);
    if TrimStart(s + back) == TrimStart(s) + back {
      BlankBehind(TrimStart(s), back);
    } else {
      assert [] + TrimStart(s + back) == TrimStart(s + back);
      BlankBehind([], TrimStart(s + back));
    }
  }

  // ---------------------------------------------------------------- the decision

  /** The list has the process, in whatever case. */
  predicate Listed(names: seq<Str>, actual: Str) {
    exists n <- names :: EqualIgnoringCase(n, Trim(actual))
  }

  lemma NamedExactly(names: seq<Str>, actual: Str)
    ensures Names(names, ProcessName(actual)) <==> Listed(names, actual)
  {
    forall i | 0 <= i < |names|
      ensures Lower(names[i]) == ProcessName(actual) <==> EqualIgnoringCase(names[i], Trim(actual))
    {
      LowerExactly(names[i], Trim(actual));
    }
    if Listed(names, actual) {
      var n :| n in names && EqualIgnoringCase(n, Trim(actual));
      var i :| 0 <= i < |names| && names[i] == n;
      assert Lower(names[i]) == ProcessName(actual);
    }
  }

  function ProhibitingLists(p: Policy): seq<seq<Str>> {
    [p.blockedProcesses, p.remoteProcesses, p.screenCaptureProcesses, p.debugProcesses]
    + if p.allowVm then [] else [p.virtualMachineProcesses]
  }

  /** Each of the five lists prohibits by itself, that of virtual machines unless these are allowed. */
  lemma ProhibitedExactly(p: Policy, actual: Str)
    ensures Prohibited(p, ProcessName(actual)) <==> exists names <- ProhibitingLists(p) :: Listed(names, actual)
  {
    var lists := ProhibitingLists(p);
    forall names | names in lists ensures Names(names, ProcessName(actual)) <==> Listed(names, actual) {
      NamedExactly(names, actual);
    }
    assert lists[0] == p.blockedProcesses && lists[1] == p.remoteProcesses;
    assert lists[2] == p.screenCaptureProcesses && lists[3] == p.debugProcesses;
    assert !p.allowVm ==> lists[4] == p.virtualMachineProcesses;
    assert forall k | 0 <= k < |lists| :: lists[k] in lists;
    NamedExactly(p.virtualMachineProcesses, actual);
  }

  /** The whole decision depends on the process name only up to its case. */
  lemma CaseDoesNotMatter(keys: Keys, seen: Cache, r: Request, a: Str, b: Str, now: U64, servicePid: nat)
    requires EqualIgnoringCase(Trim(a), Trim(b))
    ensures PassesEveryGate(keys, seen, r, a, now, servicePid) <==> PassesEveryGate(keys, seen, r, b, now, servicePid)
  {
    LowerExactly(Trim(a), Trim(b));
  }

  // ---------------------------------------------------------------- whole runs

  /** A request that is due: for another process than the service and process 0, recent, under two genuine
      signatures that belong together and have not expired, from the device they name, and for a process that a
      list prohibits and none allows. */
  predicate IsDue(keys: Keys, c: Call) {
    var r, policy, receipt := c.request, c.request.policy.body, c.request.receipt.body;
    && r.version == 1 && r.targetPid !in {0, c.servicePid} && 24 <= Utf8Length(r.nonce) <= 128
    && r.timestampMs <= c.now + 5_000 && c.now <= r.timestampMs + 30_000
    && keys.policySigned(r.policy) == Genuine && keys.receiptSigned(r.receipt) == Genuine
    && r.policy.algorithm == Ascii("Ed25519") && r.receipt.algorithm == Ascii("Ed25519")
    && receipt.examId == policy.examId && receipt.policyVersion == policy.policyVersion
    && receipt.scope == Ascii("elevated-remediation")
    && c.now < policy.expiresAtMs && c.now < receipt.expiresAtMs
    && keys.deviceIdOf(r.devicePublicKey) == Some(receipt.deviceId) && keys.requestSigned(r)
    && !Listed(policy.allowedProcesses, c.actual)
    && exists names <- ProhibitingLists(policy) :: Listed(names, c.actual)
  }

  /** After any run a request is authorised if and only if it is due and its nonce is not remembered. */
  lemma AuthorizedExactly(keys: Keys, calls: seq<Call>, c: Call)
    ensures var s := Run(keys, calls);
            Run(keys, calls + [c]).authorized
            == if IsDue(keys, c) && c.request.nonce !in s.seen then s.authorized + [c] else s.authorized
  {
    assert (calls + [c])[..|calls|] == calls;
    DueExactly(keys, Run(keys, calls).seen, c);
  }

  lemma DueExactly(keys: Keys, seen: Cache, c: Call)
    ensures PassesEveryGate(keys, seen, c.request, c.actual, c.now, c.servicePid)
       <==> IsDue(keys, c) && c.request.nonce !in seen
  {
    NamedExactly(c.request.policy.body.allowedProcesses, c.actual);
    ProhibitedExactly(c.request.policy.body, c.actual);
  }
}
