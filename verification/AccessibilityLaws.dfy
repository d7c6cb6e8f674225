/** Crash consistency of the accessibility guard over whole runs, and what its reports are worth. */
module AccessibilityLaws {
  import opened Wrappers
  import opened AccessibilityGuard

  /** The system and the running process, with the settings the user chose for the record. */
  datatype Machine = Machine(durable: Durable, guard: Option<Settings>, original: Settings)

  datatype Call =
    | Activation(pid: nat, startedAt: Option<nat>)
    | Deactivation
    | Recovery(ownerStartedAt: Option<nat>)

  datatype Event =
    | Completed(call: Call, faults: Faults)
    | Crashed(call: Call, faults: Faults, after: nat)
    | UserChooses(settings: Settings)

  function Do(m: Machine, c: Call, f: Faults): Outcome {
    match c
    case Activation(pid, startedAt) => Activate(m.durable, m.guard, pid, startedAt, f)
    case Deactivation => Deactivate(m.durable, m.guard, f)
    case Recovery(startedAt) => Recover(m.durable, m.guard, startedAt, f)
  }

  /** The process may die at any point of a call; the user changes settings only while they are not guarded. */
  predicate Enabled(m: Machine, e: Event) {
    match e
    case Completed(_, _) => true
    case Crashed(c, f, after) => after <= |Do(m, c, f).states|
    case UserChooses(_) => m.guard.None? && m.durable.backup.None?
  }

  function Step(m: Machine, e: Event): Machine
    requires Enabled(m, e)
  {
    match e
    case Completed(c, f) =>
      m.(durable := Last(m.durable, Do(m, c, f).states), guard := Do(m, c, f).guard)
    case Crashed(c, f, after) =>
      m.(durable := Last(m.durable, Do(m, c, f).states[..after]), guard := None)
    case UserChooses(s) => m.(durable := m.durable.(os := s), original := s)
  }

  predicate IsRun(m: Machine, events: seq<Event>)
    decreases |events|
  {
    events == [] || (Enabled(m, events[0]) && IsRun(Step(m, events[0]), events[1..]))
  }

  function Run(m: Machine, events: seq<Event>): Machine
    requires IsRun(m, events)
    decreases |events|
  {
    if events == [] then m else Run(Step(m, events[0]), events[1..])
  }

  // ---------------------------------------------------------------- crash consistency

  /** The original settings are in force, or else the backup holds them; a backup never holds anything else. */
  predicate Consistent(d: Durable, original: Settings) {
    match d.backup
    case None => d.os == original
    case Some(b) => SavedSettings(b) == original
  }

  predicate Inv(m: Machine) {
    Consistent(m.durable, m.original) && (m.guard.Some? ==> m.guard.value == m.original)
  }

  predicate AllConsistent(states: seq<Durable>, original: Settings) {
    forall d <- states :: Consistent(d, original)
  }

  lemma ApplyStepsConsistent(d: Durable, s: Settings, w: Writes, original: Settings)
    requires Consistent(d, original) && (d.backup.None? ==> s == original)
    ensures var steps := ApplySteps(d, s, w);
            && AllConsistent(steps.states, original)
            && Last(d, steps.states).backup == d.backup
            && (steps.ok ==> Last(d, steps.states).os == s)
  {
  }

  lemma PersistStepsConsistent(d: Durable, b: Backup, f: Faults, original: Settings)
    requires Consistent(d, original) && (d.backup.None? ==> SavedSettings(b) == original)
    ensures var steps := PersistSteps(d, b, f);
            && AllConsistent(steps.states, original)
            && Last(d, steps.states).os == d.os
            && (steps.ok ==> d.backup.None? && Last(d, steps.states).backup == Some(b))
  {
  }

  lemma RemoveStepsConsistent(d: Durable, f: Faults, original: Settings)
    requires Consistent(d, original) && d.os == original
    ensures AllConsistent(RemoveSteps(d, f).states, original) && Last(d, RemoveSteps(d, f).states).os == original
  {
  }

  lemma RollBackConsistent(d: Durable, f: Faults, original: Settings)
    requires Consistent(d, original)
    ensures AllConsistent(RollBack(d, original, f), original)
  {
    var restore := ApplySteps(d, original, f.rollback);
    ApplyStepsConsistent(d, original, f.rollback, original);
    if restore.ok {
      RemoveStepsConsistent(Last(d, restore.states), f, original);
    }
  }

  lemma ActivateConsistent(m: Machine, pid: nat, startedAt: Option<nat>, f: Faults)
    requires Inv(m)
    ensures AllConsistent(Activate(m.durable, m.guard, pid, startedAt, f).states, m.original)
  {
    var d, b := m.durable, FromSettings(m.durable.os, pid, startedAt);
    if m.guard.None? && f.query {
      PersistStepsConsistent(d, b, f, m.original);
      var persist := PersistSteps(d, b, f);
      if persist.ok {
        var saved := Last(d, persist.states);
        var apply := ApplySteps(saved, Disabled(d.os), f.apply);
        ApplyStepsConsistent(saved, Disabled(d.os), f.apply, m.original);
        RollBackConsistent(Last(saved, apply.states), f, m.original);
      }
    }
  }

  /** Putting the original settings back and then removing the backup. */
  lemma RestoreConsistent(d: Durable, f: Faults, original: Settings)
    requires Consistent(d, original)
    ensures var apply := ApplySteps(d, original, f.apply);
            var restored := Last(d, apply.states);
            && AllConsistent(apply.states, original)
            && (apply.ok ==> AllConsistent(RemoveSteps(restored, f).states, original))
            && (apply.ok ==> Last(restored, RemoveSteps(restored, f).states).os == original)
  {
    var apply := ApplySteps(d, original, f.apply);
    ApplyStepsConsistent(d, original, f.apply, original);
    if apply.ok {
      RemoveStepsConsistent(Last(d, apply.states), f, original);
    }
  }

  lemma CallConsistent(m: Machine, c: Call, f: Faults)
    requires Inv(m)
    ensures AllConsistent(Do(m, c, f).states, m.original)
    ensures Do(m, c, f).guard.Some? ==> Do(m, c, f).guard.value == m.original
  {
    match c {
      case Activation(pid, startedAt) =>
        ActivateConsistent(m, pid, startedAt, f);
        ActivatesOnlyFromOriginal(m, pid, startedAt, f);
      case Deactivation => RestoreConsistent(m.durable, f, m.original);
      case Recovery(_) => RestoreConsistent(m.durable, f, m.original);
    }
  }

  /** A guard newly in force: its settings are the original ones, saved in the backup, and the shortcuts are off. */
  lemma ActivatesOnlyFromOriginal(m: Machine, pid: nat, startedAt: Option<nat>, f: Faults)
    requires Inv(m)
    ensures var o := Activate(m.durable, m.guard, pid, startedAt, f);
            var after := Last(m.durable, o.states);
            m.guard.None? && o.guard.Some? ==>
              && o.guard.value == m.original && after.os == Disabled(m.original)
              && after.backup.Some? && ToSettings(after.backup.value) == Some(m.original)
  {
    var d, b := m.durable, FromSettings(m.durable.os, pid, startedAt);
    if m.guard.None? && f.query {
      PersistStepsConsistent(d, b, f, m.original);
      var persist := PersistSteps(d, b, f);
      if persist.ok {
        var saved := Last(d, persist.states);
        var apply := ApplySteps(saved, Disabled(d.os), f.apply);
        ApplyStepsConsistent(saved, Disabled(d.os), f.apply, m.original);
        LastOfBoth(d, persist.states, apply.states);
      }
    }
  }

  lemma ConsistentPrefix(d: Durable, states: seq<Durable>, k: nat, original: Settings)
    requires Consistent(d, original) && AllConsistent(states, original) && k <= |states|
    ensures Consistent(Last(d, states[..k]), original)
  {
  }

  lemma StepKeepsInv(m: Machine, e: Event)
    requires Inv(m) && Enabled(m, e)
    ensures Inv(Step(m, e))
  {
    match e {
      case Completed(c, f) => CallConsistent(m, c, f);
      case Crashed(c, f, after) =>
        CallConsistent(m, c, f);
        ConsistentPrefix(m.durable, Do(m, c, f).states, after, m.original);
      case UserChooses(_) =>
    }
  }

  /** With any write failing anywhere and crashes between any two steps, every durable state of every run
      has the original settings in force or in the backup. */
  lemma {:induction false} NeverLosesTheSettings(m: Machine, events: seq<Event>)
    requires Inv(m) && IsRun(m, events)
    ensures var end := Run(m, events);
            && Inv(end)
            && (end.durable.os == end.original
                || (end.durable.backup.Some? && SavedSettings(end.durable.backup.value) == end.original))
    decreases |events|
  {
    if events != [] {
      StepKeepsInv(m, events[0]);
      NeverLosesTheSettings(Step(m, events[0]), events[1..]);
    }
  }

  // ---------------------------------------------------------------- the backup

  lemma RestoreKeepsOrRemoves(d: Durable, s: Settings, f: Faults)
    ensures var apply := ApplySteps(d, s, f.apply);
            && (forall after <- apply.states :: after.backup == d.backup)
            && forall after <- RemoveSteps(Last(d, apply.states), f).states :: after.backup.None?
  {
  }

  /** A backup is never overwritten: a call leaves it as it is or removes it, and removes it only with the
      original settings in force. */
  lemma BackupNeverOverwritten(m: Machine, c: Call, f: Faults)
    requires Inv(m) && m.durable.backup.Some?
    ensures forall d <- Do(m, c, f).states :: d.backup == m.durable.backup || (d.backup.None? && d.os == m.original)
    ensures c.Activation? ==> Do(m, c, f).states == []
  {
    CallConsistent(m, c, f);
    RestoreKeepsOrRemoves(m.durable, m.original, f);
    forall d <- Do(m, c, f).states
      ensures d.backup == m.durable.backup || (d.backup.None? && d.os == m.original)
    {
      assert Consistent(d, m.original);
    }
  }

  // ---------------------------------------------------------------- what a report is worth

  /** A recovery that reports success has put the original settings in force. */
  lemma RecoveryReportIsTrue(m: Machine, startedAt: Option<nat>, f: Faults)
    requires Inv(m)
    ensures var o := Recover(m.durable, m.guard, startedAt, f);
            o.result.applied ==> Last(m.durable, o.states).os == m.original && Last(m.durable, o.states).backup.None?
  {
    RestoreConsistent(m.durable, f, m.original);
    if m.durable.backup.Some? {
      var apply := ApplySteps(m.durable, m.original, f.apply);
      ApplyStepsConsistent(m.durable, m.original, f.apply, m.original);
      LastOfBoth(m.durable, apply.states, RemoveSteps(Last(m.durable, apply.states), f).states);
    }
  }

  /** A deactivation that reports success has put the original settings in force exactly if the guard was
      up, or there is no backup, or the settings in force are those of the backup: without a guard it looks
      at neither. */
  lemma DeactivationReportExactly(m: Machine, f: Faults)
    requires Inv(m) && Deactivate(m.durable, m.guard, f).result.applied
    ensures Last(m.durable, Deactivate(m.durable, m.guard, f).states).os == m.original
      <==> m.guard.Some? || m.durable.backup.None? || SavedSettings(m.durable.backup.value) == m.durable.os
  {
    RestoreConsistent(m.durable, f, m.original);
    if m.guard.Some? {
      var apply := ApplySteps(m.durable, m.original, f.apply);
      LastOfBoth(m.durable, apply.states, RemoveSteps(Last(m.durable, apply.states), f).states);
    }
  }

  const HALF_WAY: Faults :=
    Faults(true, true, true, true, true, Writes(true, false, true), Writes(false, false, false), true, true)

  /** Sticky Keys' shortcut is off, the filter write failed and so did writing the old value back: the
      deactivation that follows reports success, and the shortcut stays off. */
  lemma DeactivationCanMisreport(original: Settings, pid: nat, startedAt: Option<nat>, f: Faults)
    requires HotkeysOff(original.sticky) != original.sticky
    ensures var start := Machine(Durable(original, None, Absent), None, original);
            var m := Step(start, Completed(Activation(pid, startedAt), HALF_WAY));
            && Inv(m) && Deactivate(m.durable, m.guard, f).result.applied
            && Last(m.durable, Deactivate(m.durable, m.guard, f).states).os != original
  {
    var start := Machine(Durable(original, None, Absent), None, original);
    var m := Step(start, Completed(Activation(pid, startedAt), HALF_WAY));
    StepKeepsInv(start, Completed(Activation(pid, startedAt), HALF_WAY));
    assert m.durable.os == original.(sticky := HotkeysOff(original.sticky));
  }

  /** Without a guard and with a backup that names the running process, no call of that process changes
      anything durable; only a later process can restore the settings. */
  lemma OwnBackupBlocksEverything(m: Machine, c: Call, f: Faults)
    requires m.guard.None? && m.durable.backup.Some?
    requires c.Recovery? ==>
      var b := m.durable.backup.value; SameProcessIdentity(b.ownerPid, b.ownerStartedAt, b.ownerPid, c.ownerStartedAt)
    ensures Do(m, c, f).states == [] && Do(m, c, f).guard.None?
  {
  }

  const NO_FAULT: Faults :=
    Faults(true, true, true, true, true, Writes(true, true, true), Writes(true, true, true), true, true)

  /** After any run: once the owner of the backup is gone, a recovery without faults restores the original
      settings and removes the backup, provided the backup's version is known. */
  lemma RecoverySucceeds(m: Machine, events: seq<Event>, startedAt: Option<nat>)
    requires Inv(m) && IsRun(m, events)
    ensures var end := Run(m, events);
            var o := Recover(end.durable, end.guard, startedAt, NO_FAULT);
            var after := Last(end.durable, o.states);
            var backup := end.durable.backup;
            o.result.applied <==>
              backup.Some? ==>
                && backup.value.version in {1, 2}
                && !SameProcessIdentity(backup.value.ownerPid, backup.value.ownerStartedAt,
                                        backup.value.ownerPid, startedAt)
    ensures var end := Run(m, events);
            var o := Recover(end.durable, end.guard, startedAt, NO_FAULT);
            o.result.applied ==> Last(end.durable, o.states).os == end.original
  {
    NeverLosesTheSettings(m, events);
    RecoveryReportIsTrue(Run(m, events), startedAt, NO_FAULT);
  }

  // ---------------------------------------------------------------- what an activation does

  /** The two shortcut bits are off and every other bit is the user's. */
  predicate ShortcutOff(flags: bv32, original: bv32) {
    flags & 4 == 0 && flags & 8 == 0 && flags & 0xFFFF_FFF3 == original & 0xFFFF_FFF3
  }

  /** All three shortcuts are off and nothing else is touched. */
  predicate ShortcutsOff(s: Settings, original: Settings) {
    && ShortcutOff(s.sticky, original.sticky) && ShortcutOff(s.filter.flags, original.filter.flags)
    && ShortcutOff(s.toggle, original.toggle)
    && s.filter.waitMs == original.filter.waitMs && s.filter.delayMs == original.filter.delayMs
    && s.filter.repeatMs == original.filter.repeatMs && s.filter.bounceMs == original.filter.bounceMs
  }

  lemma HotkeysOffExactly(flags: bv32)
    ensures ShortcutOff(HotkeysOff(flags), flags)
  {
  }

  lemma DisabledExactly(s: Settings)
    ensures ShortcutsOff(Disabled(s), s)
  {
    HotkeysOffExactly(s.sticky);
    HotkeysOffExactly(s.filter.flags);
    HotkeysOffExactly(s.toggle);
  }

  /** An activation that reports success has turned the shortcuts of all three features off, and nothing else. */
  lemma ActivationTurnsShortcutsOff(m: Machine, pid: nat, startedAt: Option<nat>, f: Faults)
    requires Inv(m) && m.guard.None?
    ensures var o := Activate(m.durable, m.guard, pid, startedAt, f);
            && (o.result.applied <==> o.guard.Some?) && o.result.active == o.result.applied
            && (o.result.applied ==> ShortcutsOff(Last(m.durable, o.states).os, m.original))
  {
    ActivatesOnlyFromOriginal(m, pid, startedAt, f);
    DisabledExactly(m.original);
  }

  predicate AllWrites(w: Writes) {
    w.sticky && w.filter && w.toggle
  }

  /** It succeeds exactly if a guard is in force already, or there is no backup and no step of it fails. */
  lemma ActivationSucceedsExactly(m: Machine, pid: nat, startedAt: Option<nat>, f: Faults)
    ensures Activate(m.durable, m.guard, pid, startedAt, f).result.applied
       <==> m.guard.Some?
            || (m.durable.backup.None? && f.query && f.directory && f.write && f.rename && AllWrites(f.apply))
  {
  }

  /** A deactivation succeeds exactly if no guard is in force, or its writes do and the backup is gone after it;
      a guard whose writes succeed is given up in any case. */
  lemma DeactivationSucceedsExactly(m: Machine, f: Faults)
    ensures var o := Deactivate(m.durable, m.guard, f);
            && (o.result.applied <==>
                  m.guard.None? || (AllWrites(f.apply) && (m.durable.backup.None? || f.remove)))
            && (m.guard.Some? ==> (o.guard.None? <==> AllWrites(f.apply)) && (o.result.active <==> o.guard.Some?))
            && (m.guard.Some? && AllWrites(f.apply) ==> Last(m.durable, o.states).os == m.guard.value)
  {
    if m.guard.Some? {
      var apply := ApplySteps(m.durable, m.guard.value, f.apply);
      LastOfBoth(m.durable, apply.states, RemoveSteps(Last(m.durable, apply.states), f).states);
    }
  }

  /** The owner of a backup counts as alive exactly if the system reports such a process and, where the backup
      says when it started, one that started then. */
  lemma OwnerIsAliveExactly(b: Backup, startedAt: Option<nat>)
    ensures SameProcessIdentity(b.ownerPid, b.ownerStartedAt, b.ownerPid, startedAt)
       <==> startedAt.Some? && (b.ownerStartedAt.None? || b.ownerStartedAt == startedAt)
  {
  }

  /** A new guard's backup names the process that activated it. */
  lemma ActivationNamesItsOwner(m: Machine, pid: nat, startedAt: Option<nat>, f: Faults)
    requires Inv(m) && m.guard.None?
    ensures var o := Activate(m.durable, m.guard, pid, startedAt, f);
            var backup := Last(m.durable, o.states).backup;
            o.result.applied ==>
              backup.Some? && backup.value.ownerPid == pid && backup.value.ownerStartedAt == startedAt
              && backup.value.version == 2
  {
    var d, b := m.durable, FromSettings(m.durable.os, pid, startedAt);
    if f.query && PersistSteps(d, b, f).ok {
      var persist := PersistSteps(d, b, f);
      var apply := ApplySteps(Last(d, persist.states), Disabled(d.os), f.apply);
      LastOfBoth(d, persist.states, apply.states);
    }
  }

  // ---------------------------------------------------------------- values

  lemma BackupRoundTrip(s: Settings, pid: nat, startedAt: Option<nat>)
    ensures ToSettings(FromSettings(s, pid, startedAt)) == Some(s)
  {
  }

  /** The two shortcut bits are cleared and no other bit is touched. */
  lemma OnlyTheHotkeyBits(flags: bv32)
    ensures HotkeysOff(flags) & HOTKEY_BITS == 0
    ensures HotkeysOff(flags) | (flags & HOTKEY_BITS) == flags
  {
    AndIsSplitByMask(flags, HOTKEY_BITS);
  }

  lemma AndIsSplitByMask(x: bv32, mask: bv32)
    ensures (x & !mask) & mask == 0
    ensures (x & !mask) | (x & mask) == x
  {
  }
}
