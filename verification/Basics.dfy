/** Vocabulary shared by every component: optional values and the fixed catalogue of actions. */
module Basics {

  datatype Option<+T> = None | Some(value: T) {
    function GetOr(default: T): T {
      if Some? then value else default
    }
  }

  /** The actions both sides know; `Other` stands for any name outside the catalogue. */
  datatype Action =
    | GetStatus
    | GetIp
    | WarpOn
    | WarpOff
    | ChangeIp
    | RestartXui
    | UpgradeAgent
    | InstallWarp
    | InstallXui
    | BackupXui
    | RestoreXui
    | Other(name: string)

  predicate Supported(action: Action) {
    !action.Other?
  }

  predicate StateChanging(action: Action) {
    Supported(action) && !action.GetStatus? && !action.GetIp?
  }

  predicate LongRunning(action: Action) {
    action.InstallWarp? || action.InstallXui? || action.BackupXui? || action.RestoreXui?
  }

  /** One of the operations from number `from` up to `to` fails. */
  ghost predicate Faulty(faults: nat -> bool, from: nat, to: nat) {
    exists k: nat :: from <= k < to && faults(k)
  }

  lemma Joined<T>(a: seq<T>, b: seq<T>, c: seq<T>)
    ensures a + b + c == a + (b + c)
  {
  }

  /** No value occurs twice. */
  ghost predicate NoRepeats<T>(s: seq<T>) {
    forall i, j :: 0 <= i < j < |s| ==> s[i] != s[j]
  }

  lemma NoRepeatsAppend<T>(s: seq<T>, x: T)
    requires NoRepeats(s) && x !in s
    ensures NoRepeats(s + [x])
  {
  }
}
