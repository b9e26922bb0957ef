/**
 The part of a parsed unit file that dependency resolution, starting and
 restarting read (`UnitFile` and its helpers).
 */
module UnitFiles {
  import opened Strings

  /** A unit's file name, such as `sshd.service`. */
  datatype Name = Name(text: string)

  datatype UnitType = Service | Target | Mount | Socket | Unknown

  datatype RestartPolicy = No | OnSuccess | OnFailure | OnAbnormal | OnWatchdog | OnAbort | Always

  /**
   `letters` are the specifier expansions that hold for this unit on this host
   (unit name parts, host name, boot id, ...); they do not change during a run.
   */
  datatype UnitFile = UnitFile(
    kind: UnitType,
    after: seq<Name>,
    requires_: seq<Name>,
    execStart: string,
    letters: map<char, string>,
    restart: string,
    burstLimit: int,
    burstInterval: int)

  /** All loaded units, keyed by name. */
  type Units = map<Name, UnitFile>

  /** `is_bare_template`: a template file such as `getty@.service`, without an instance. */
  predicate IsBareTemplate(n: Name)
  {
    var at, dot := Find(n.text, '@', 0), RFind(n.text, '.');
    at < |n.text| && dot >= 0 && at + 1 == dot
  }

  function ParseRestartPolicy(s: string): RestartPolicy
  {
    if s == "always" then Always
    else if s == "on-failure" then OnFailure
    else if s == "on-success" then OnSuccess
    else if s == "on-abnormal" then OnAbnormal
    else if s == "on-watchdog" then OnWatchdog
    else if s == "on-abort" then OnAbort
    else No
  }

  function ShouldRestart(policy: RestartPolicy, code: int, signaled: bool): bool
  {
    var clean := !signaled && code == 0;
    match policy
    case No => false
    case Always => true
    case OnSuccess => clean
    case OnFailure => !clean
    case OnAbnormal => signaled || code > 0
    case OnAbort => signaled
    case OnWatchdog => false
  }

  /** What each text of Restart= means, for any exit status waitpid can report; any other text means no restart. */
  lemma RestartMeaning(text: string, code: int, signaled: bool)
    requires code >= 0
    ensures ShouldRestart(ParseRestartPolicy(text), code, signaled) <==>
      || text == "always"
      || (text == "on-success" && code == 0 && !signaled)
      || ((text == "on-failure" || text == "on-abnormal") && (code != 0 || signaled))
      || (text == "on-abort" && signaled)
  {
    assert "always"[0] == 'a' && "on-failure"[3] == 'f' && "on-success"[3] == 's' && "on-watchdog"[3] == 'w';
    assert "on-abnormal"[5] == 'n' && "on-abort"[5] == 'o';
  }

  /**
   How the policies relate on any exit status waitpid can report: success and
   failure are complementary, an abort is a failure, and the abnormal policy
   restarts on exactly the same exits as the failure policy.
   */
  lemma PoliciesCompared(code: int, signaled: bool)
    requires code >= 0
    ensures ShouldRestart(OnFailure, code, signaled) <==> !ShouldRestart(OnSuccess, code, signaled)
    ensures ShouldRestart(OnAbort, code, signaled) ==> ShouldRestart(OnFailure, code, signaled)
    ensures ShouldRestart(OnAbnormal, code, signaled) <==> ShouldRestart(OnFailure, code, signaled)
    ensures ShouldRestart(OnSuccess, code, signaled) <==> code == 0 && !signaled
    ensures ShouldRestart(Always, code, signaled)
    ensures !ShouldRestart(No, code, signaled) && !ShouldRestart(OnWatchdog, code, signaled)
  {
  }
}
