/** The diagnosis recorded with a failure, which decides whether Retry is offered. */
module Classify {

  datatype Stage =
    | CloneStage | QuotaStage | EngineStart | EngineReady | HookStage | EngineStop | StopStage
    | SnapshotStage | StashStage | RollbackStage | StorageStage

  datatype Code = CloneFailed | EngineFailed | HookFailed | SnapshotError | StorageError

  predicate Contains(s: string, word: string) {
    |word| <= |s| && (word <= s || Contains(s[1..], word))
  }

  lemma {:induction false} ContainsAfter(before: string, word: string, after: string)
    requires word != ""
    ensures Contains(before + word + after, word)
  {
    var s := before + word + after;
    if before == "" {
      assert s == word + after;
    } else {
      ContainsAfter(before[1..], word, after);
      assert s[1..] == before[1..] + word + after;
    }
  }

  lemma {:induction false} ContainsFirst(s: string, word: string)
    requires word != "" && Contains(s, word)
    ensures word[0] in s
  {
    if word <= s {
      assert s[0] == word[0];
    } else {
      ContainsFirst(s[1..], word);
    }
  }

  /** The text of the error comes first: whatever mentions "hook" counts as a hook failure. */
  function Diagnose(stage: Stage, msg: string): (Code, bool) {
    if Contains(msg, "hook") then (HookFailed, true)
    else match stage
      case CloneStage => (CloneFailed, true)
      case EngineStart => (EngineFailed, true)
      case EngineReady => (EngineFailed, true)
      case SnapshotStage => (SnapshotError, false)
      case RollbackStage => (StorageError, true)
      case StashStage => (StorageError, true)
      case QuotaStage => (StorageError, true)
      case StopStage => (StorageError, true)
      case EngineStop => (StorageError, true)
      case StorageStage => (StorageError, true)
      case HookStage => (StorageError, false)
  }

  /** What runHook reports. */
  function HookError(detail: string): (msg: string)
    ensures Contains(msg, "hook")
  {
    var msg := "hook" + (" " + detail);
    assert "hook" <= msg;
    msg
  }

  /** Only a failed @init snapshot is final, and not even that one when the text of its
      error, which names the dataset, happens to contain "hook". */
  lemma RecoverableExceptSnapshot(stage: Stage, msg: string)
    requires stage.HookStage? ==> Contains(msg, "hook")
    ensures Diagnose(stage, msg).1 <==> (stage != SnapshotStage || Contains(msg, "hook"))
  {
  }

  /** The code tells which stages may have failed. */
  lemma CodesTell(stage: Stage, msg: string)
    requires stage.HookStage? ==> Contains(msg, "hook")
    ensures var code, hook := Diagnose(stage, msg).0, Contains(msg, "hook");
            && (code == HookFailed <==> hook)
            && (code == CloneFailed <==> !hook && stage == CloneStage)
            && (code == EngineFailed <==> !hook && stage in {EngineStart, EngineReady})
            && (code == SnapshotError <==> !hook && stage == SnapshotStage)
            && (code == StorageError <==>
                !hook && stage in {RollbackStage, StashStage, QuotaStage, StopStage, EngineStop, StorageStage})
  {
    hide Contains;
  }

  /** So a snapshot that fails on a branch such as "webhook", whose name is part of the
      error text, is offered a retry that the stage alone would rule out. */
  lemma SnapshotOfHookBranchIsRetried(before: string, after: string)
    ensures Diagnose(SnapshotStage, before + "hook" + after) == (HookFailed, true)
    ensures Diagnose(SnapshotStage, "") == (SnapshotError, false)
  {
    ContainsAfter(before, "hook", after);
  }
}
