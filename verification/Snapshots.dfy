/** The desktop runtime snapshot: a complete record of named fields, changed by partial patches. */
module Snapshots {

  datatype Field =
    | SessionState | SafeExamMode | ExamProtectionActive | ProtectionDryRun | KioskActive | OverlayActive
    | TaskbarHidden | KeyboardHookActive | FocusLockActive | InputHookActive | MouseHookActive | FocusHookActive
    | ClipboardListenerActive | OverlayHealActive | CaptureHealActive | CaptureProtectionActive
    | ElectronContentProtectionActive | RustOverlayCaptureProtectionActive | CaptureProtectionBestEffort
    | RuntimeMonitorActive | KioskHandoffCompleted | BlackOverlayCount
    | ExitInProgress | StateTransitionLock | UiInteractionLocked | AudioLockActive | ExamMode
    | GovernorId | GovernorSequenceId | GovernorLockMode | GovernorEventQueueLength
    | OtherField(name: string)

  /** JavaScript values as far as the runtime looks at them. */
  datatype Val = Undefined | Null | Bool(truth: bool) | Num(number: int) | Text(text: string) | Opaque(tag: nat)

  predicate Truthy(v: Val) {
    match v
    case Bool(truth) => truth
    case Num(n) => n != 0
    case Text(t) => t != ""
    case Opaque(_) => true
    case _ => false
  }

  /** Fields that are absent read as `undefined`. */
  type Patch = map<Field, Val>
  type Snapshot = map<Field, Val>

  function Get(m: map<Field, Val>, f: Field): Val {
    if f in m then m[f] else Undefined
  }

  /** `{...base, ...patch}` */
  function Merge(base: Snapshot, patch: Patch): Snapshot {
    base + patch
  }

  const EXAM_RUNNING: string := "EXAM_RUNNING"
  const EXAM_RUNNING_CONFIRMED: string := "EXAM_RUNNING_CONFIRMED"
  const ENTERING_KIOSK: string := "ENTERING_KIOSK"
  const EXAM_EXIT_REQUESTED: string := "EXAM_EXIT_REQUESTED"
  const EXAM_EXITING: string := "EXAM_EXITING"
  const EXITED: string := "EXITED"

  lemma StatesDiffer()
    ensures EXAM_RUNNING != EXAM_RUNNING_CONFIRMED && EXAM_RUNNING_CONFIRMED != ENTERING_KIOSK
    ensures EXAM_RUNNING_CONFIRMED != EXAM_EXIT_REQUESTED && EXAM_RUNNING_CONFIRMED != EXAM_EXITING
    ensures EXAM_RUNNING_CONFIRMED != EXITED && EXAM_EXIT_REQUESTED != EXITED && EXAM_EXITING != EXITED
    ensures EXAM_RUNNING != EXITED && EXAM_RUNNING != EXAM_EXITING && EXAM_RUNNING != EXAM_EXIT_REQUESTED
    ensures EXAM_EXITING != EXAM_EXIT_REQUESTED
    ensures ENTERING_KIOSK != EXAM_EXIT_REQUESTED && ENTERING_KIOSK != EXITED && ENTERING_KIOSK != EXAM_EXITING
  {
    assert |EXAM_RUNNING| == 12 && |EXAM_RUNNING_CONFIRMED| == 22 && |ENTERING_KIOSK| == 14;
    assert |EXAM_EXIT_REQUESTED| == 19 && |EXAM_EXITING| == 12 && |EXITED| == 6;
    assert EXAM_RUNNING[5] == 'R' && EXAM_EXITING[5] == 'E';
  }
}
