/**
 The accessibility guard: it turns off the keyboard shortcuts of Sticky, Filter and Toggle Keys, and
 keeps the user's settings in a backup file until they are restored. Every primitive write may fail,
 and the process may die between any two of them; each call therefore yields the list of durable
 states it passes through.
 */
module AccessibilityGuard {
  import opened Wrappers

  datatype FilterKeys = FilterKeys(flags: bv32, waitMs: nat, delayMs: nat, repeatMs: nat, bounceMs: nat)

  datatype Settings = Settings(sticky: bv32, filter: FilterKeys, toggle: bv32)

  datatype Backup = Backup(
    version: nat,
    ownerPid: nat,
    ownerStartedAt: Option<nat>,
    stickyFlags: bv32,
    filterFlags: bv32,
    filterWaitMs: nat,
    filterDelayMs: nat,
    filterRepeatMs: nat,
    filterBounceMs: nat,
    toggleFlags: bv32)

  function FromSettings(s: Settings, pid: nat, startedAt: Option<nat>): Backup {
    Backup(2, pid, startedAt, s.sticky, s.filter.flags, s.filter.waitMs, s.filter.delayMs, s.filter.repeatMs,
           s.filter.bounceMs, s.toggle)
  }

  function SavedSettings(b: Backup): Settings {
    Settings(b.stickyFlags,
             FilterKeys(b.filterFlags, b.filterWaitMs, b.filterDelayMs, b.filterRepeatMs, b.filterBounceMs),
             b.toggleFlags)
  }

  function ToSettings(b: Backup): Option<Settings> {
    if b.version != 1 && b.version != 2 then None else Some(SavedSettings(b))
  }

  /** The bits HOTKEYACTIVE and CONFIRMHOTKEY, the same in all three flag words. */
  const HOTKEY_BITS: bv32 := 4 | 8

  function HotkeysOff(flags: bv32): bv32 {
    flags & !HOTKEY_BITS
  }

  function Disabled(s: Settings): Settings {
    Settings(HotkeysOff(s.sticky), s.filter.(flags := HotkeysOff(s.filter.flags)), HotkeysOff(s.toggle))
  }

  /** What survives the process: the settings themselves, the backup file and its temporary file. */
  datatype Durable = Durable(os: Settings, backup: Option<Backup>, temporary: Temporary)

  datatype Temporary = Absent | Torn | Whole(content: Backup)

  /** Which of the three setting writes succeed; a failed one changes nothing. */
  datatype Writes = Writes(sticky: bool, filter: bool, toggle: bool)

  datatype Faults = Faults(
    query: bool,
    directory: bool,
    write: bool,
    rename: bool,
    discard: bool,
    apply: Writes,
    rollback: Writes,
    read: bool,
    remove: bool)

  datatype Mutation = Mutation(applied: bool, active: bool)

  /** The durable states a step passes through, in order, and whether it succeeded. */
  datatype Steps = Steps(states: seq<Durable>, ok: bool)

  datatype Outcome = Outcome(states: seq<Durable>, guard: Option<Settings>, result: Mutation)

  function Last(d: Durable, states: seq<Durable>): Durable {
    if states == [] then d else states[|states| - 1]
  }

  lemma LastOfBoth(d: Durable, first: seq<Durable>, second: seq<Durable>)
    ensures Last(d, first + second) == Last(Last(d, first), second)
    ensures forall history: seq<Durable> :: (history + first) + second == history + (first + second)
  {
    forall history: seq<Durable> ensures (history + first) + second == history + (first + second) {
      assert (history + first) + second == history + (first + second);
    }
  }

  // ---------------------------------------------------------------- the calls as functions

  function ApplySteps(d: Durable, s: Settings, w: Writes): Steps {
    var sticky := d.(os := d.os.(sticky := s.sticky));
    var filter := sticky.(os := sticky.os.(filter := s.filter));
    var toggle := filter.(os := filter.os.(toggle := s.toggle));
    if !w.sticky then Steps([], false)
    else if !w.filter then Steps([sticky], false)
    else if !w.toggle then Steps([sticky, filter], false)
    else Steps([sticky, filter, toggle], true)
  }

  /** `persist_backup_at`: the backup appears whole or not at all. */
  function PersistSteps(d: Durable, b: Backup, f: Faults): Steps {
    var torn := d.(temporary := Torn);
    var whole := d.(temporary := Whole(b));
    if d.backup.Some? || !f.directory then Steps([], false)
    else if !f.write then Steps([torn], false)
    else if f.rename then Steps([torn, whole, d.(backup := Some(b), temporary := Absent)], true)
    else if f.discard then Steps([torn, whole, d.(temporary := Absent)], false)
    else Steps([torn, whole], false)
  }

  function RemoveSteps(d: Durable, f: Faults): Steps {
    if d.backup.None? then Steps([], true)
    else if f.remove then Steps([d.(backup := None)], true)
    else Steps([], false)
  }

  /** After a failed change: write the original settings back, and if that works drop the backup. */
  function RollBack(d: Durable, original: Settings, f: Faults): seq<Durable> {
    var restore := ApplySteps(d, original, f.rollback);
    restore.states + if restore.ok then RemoveSteps(Last(d, restore.states), f).states else []
  }

  function Activate(d: Durable, guard: Option<Settings>, pid: nat, startedAt: Option<nat>, f: Faults): Outcome {
    if guard.Some? then Outcome([], guard, Mutation(true, true))
    else if !f.query then Outcome([], guard, Mutation(false, false))
    else
      var snapshot := d.os;
      var persist := PersistSteps(d, FromSettings(snapshot, pid, startedAt), f);
      if !persist.ok then Outcome(persist.states, guard, Mutation(false, false))
      else
        var saved := Last(d, persist.states);
        var apply := ApplySteps(saved, Disabled(snapshot), f.apply);
        if apply.ok then Outcome(persist.states + apply.states, Some(snapshot), Mutation(true, true))
        else
          var undone := RollBack(Last(saved, apply.states), snapshot, f);
          Outcome(persist.states + apply.states + undone, guard, Mutation(false, false))
  }

  function Deactivate(d: Durable, guard: Option<Settings>, f: Faults): Outcome {
    if guard.None? then Outcome([], guard, Mutation(true, false))
    else
      var apply := ApplySteps(d, guard.value, f.apply);
      if !apply.ok then Outcome(apply.states, guard, Mutation(false, true))
      else
        var remove := RemoveSteps(Last(d, apply.states), f);
        Outcome(apply.states + remove.states, None, Mutation(remove.ok, false))
  }

  predicate SameProcessIdentity(ownerPid: nat, ownerStartedAt: Option<nat>,
                                candidatePid: nat, candidateStartedAt: Option<nat>)
  {
    ownerPid == candidatePid
    && if ownerStartedAt.Some? then candidateStartedAt == ownerStartedAt else candidateStartedAt.Some?
  }

  /** `startedAt` is what the system reports for the backup's owner, if there is such a process. */
  function Recover(d: Durable, guard: Option<Settings>, startedAt: Option<nat>, f: Faults): Outcome {
    if d.backup.None? then Outcome([], guard, Mutation(true, false))
    else if !f.read then Outcome([], guard, Mutation(false, false))
    else
      var b := d.backup.value;
      var settings := ToSettings(b);
      if SameProcessIdentity(b.ownerPid, b.ownerStartedAt, b.ownerPid, startedAt) || settings.None?
      then Outcome([], guard, Mutation(false, false))
      else
        var apply := ApplySteps(d, settings.value, f.apply);
        if !apply.ok then Outcome(apply.states, guard, Mutation(false, false))
        else
          var remove := RemoveSteps(Last(d, apply.states), f);
          Outcome(apply.states + remove.states, guard, Mutation(remove.ok, false))
  }

  // ---------------------------------------------------------------- the calls step by step

  class Guard {
    var os: Settings
    var backup: Option<Backup>
    var temporary: Temporary
    var guard: Option<Settings>
    ghost var history: seq<Durable>

    ghost function State(): Durable
      reads this
    {
      Durable(os, backup, temporary)
    }

    constructor (os: Settings, backup: Option<Backup>, temporary: Temporary)
      ensures State() == Durable(os, backup, temporary) && guard == None && history == []
    {
      this.os, this.backup, this.temporary, guard, history := os, backup, temporary, None, [];
    }

    method ApplySnapshot(s: Settings, w: Writes) returns (ok: bool)
      modifies this
      ensures var steps := ApplySteps(old(State()), s, w);
              ok == steps.ok && history == old(history) + steps.states && State() == Last(old(State()), steps.states)
      ensures guard == old(guard)
    {
      if !w.sticky {
        return false;
      }
      os := os.(sticky := s.sticky);
      history := history + [State()];
      if !w.filter {
        return false;
      }
      os := os.(filter := s.filter);
      history := history + [State()];
      if !w.toggle {
        return false;
      }
      os := os.(toggle := s.toggle);
      history := history + [State()];
      return true;
    }

    method PersistBackup(b: Backup, f: Faults) returns (ok: bool)
      modifies this
      ensures var steps := PersistSteps(old(State()), b, f);
              ok == steps.ok && history == old(history) + steps.states && State() == Last(old(State()), steps.states)
      ensures guard == old(guard)
    {
      if backup.Some? || !f.directory {
        return false;
      }
      temporary := Torn;
      history := history + [State()];
      if !f.write {
        return false;
      }
      temporary := Whole(b);
      history := history + [State()];
      if !f.rename {
        if f.discard {
          temporary := Absent;
          history := history + [State()];
        }
        return false;
      }
      backup, temporary := Some(b), Absent;
      history := history + [State()];
      return true;
    }

    method RemoveBackup(f: Faults) returns (ok: bool)
      modifies this
      ensures var steps := RemoveSteps(old(State()), f);
              ok == steps.ok && history == old(history) + steps.states && State() == Last(old(State()), steps.states)
      ensures guard == old(guard)
    {
      if backup.None? {
        return true;
      }
      if !f.remove {
        return false;
      }
      backup := None;
      history := history + [State()];
      return true;
    }

    method ActivateGuard(pid: nat, startedAt: Option<nat>, f: Faults) returns (result: Mutation)
      modifies this
      ensures var o := Activate(old(State()), old(guard), pid, startedAt, f);
              && result == o.result && guard == o.guard
              && history == old(history) + o.states && State() == Last(old(State()), o.states)
    {
      if guard.Some? {
        return Mutation(true, true);
      }
      if !f.query {
        return Mutation(false, false);
      }
      var snapshot := os;
      var persisted := PersistBackup(FromSettings(snapshot, pid, startedAt), f);
      if !persisted {
        return Mutation(false, false);
      }
      ghost var saved := State();
      var applied := ApplySnapshot(Disabled(snapshot), f.apply);
      ghost var changed := State();
      LastOfBoth(old(State()), PersistSteps(old(State()), FromSettings(snapshot, pid, startedAt), f).states,
                 ApplySteps(saved, Disabled(snapshot), f.apply).states);
      if applied {
        guard := Some(snapshot);
        return Mutation(true, true);
      }
      UndoChange(snapshot, f);
      LastOfBoth(old(State()), PersistSteps(old(State()), FromSettings(snapshot, pid, startedAt), f).states
                                 + ApplySteps(saved, Disabled(snapshot), f.apply).states,
                 RollBack(changed, snapshot, f));
      return Mutation(false, false);
    }

    method UndoChange(original: Settings, f: Faults)
      modifies this
      ensures var undone := RollBack(old(State()), original, f);
              history == old(history) + undone && State() == Last(old(State()), undone)
      ensures guard == old(guard)
    {
      var restored := ApplySnapshot(original, f.rollback);
      if restored {
        var _ := RemoveBackup(f);
      }
    }

    method DeactivateGuard(f: Faults) returns (result: Mutation)
      modifies this
      ensures var o := Deactivate(old(State()), old(guard), f);
              && result == o.result && guard == o.guard
              && history == old(history) + o.states && State() == Last(old(State()), o.states)
    {
      if guard.None? {
        return Mutation(true, false);
      }
      var applied := ApplySnapshot(guard.value, f.apply);
      if !applied {
        return Mutation(false, true);
      }
      guard := None;
      var removed := RemoveBackup(f);
      return Mutation(removed, false);
    }

    method RecoverAfterUncleanShutdown(startedAt: Option<nat>, f: Faults) returns (result: Mutation)
      modifies this
      ensures var o := Recover(old(State()), old(guard), startedAt, f);
              && result == o.result && guard == o.guard
              && history == old(history) + o.states && State() == Last(old(State()), o.states)
    {
      if backup.None? {
        return Mutation(true, false);
      }
      if !f.read {
        return Mutation(false, false);
      }
      var b := backup.value;
      if SameProcessIdentity(b.ownerPid, b.ownerStartedAt, b.ownerPid, startedAt) {
        return Mutation(false, false);
      }
      var settings := ToSettings(b);
      if settings.None? {
        return Mutation(false, false);
      }
      var applied := ApplySnapshot(settings.value, f.apply);
      if !applied {
        return Mutation(false, false);
      }
      var removed := RemoveBackup(f);
      return Mutation(removed, false);
    }
  }
}
