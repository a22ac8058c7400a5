/** Branch names, the internally reserved ones, and the name a volume is stashed under
    while its branch is recreated. */
module Names {

  datatype Option<+T> = None | Some(value: T)

  const RESERVED_PREFIX := '_'
  const RECREATING_SUFFIX := "-recreating"
  const VALIDATE_NAME := "_validate"
  const REFRESH_UNIT := "_refresh"

  predicate HasSuffix(s: string, suffix: string) {
    |suffix| <= |s| && s[|s| - |suffix|..] == suffix
  }

  predicate IsReserved(name: string) {
    (|name| > 0 && name[0] == RESERVED_PREFIX) || HasSuffix(name, RECREATING_SUFFIX)
  }

  function StashName(name: string): (r: string) {
    name + RECREATING_SUFFIX
  }

  /** The stash name is reserved, differs from the name it belongs to, and belongs to one name only. */
  lemma StashNames(a: string, b: string)
    ensures HasSuffix(StashName(a), RECREATING_SUFFIX) && IsReserved(StashName(a))
    ensures StashName(a) == a + "-recreating" && StashName(a) != a
    ensures StashName(a) == StashName(b) ==> a == b
    ensures !HasSuffix(b, RECREATING_SUFFIX) ==> StashName(a) != b
  {
    assert StashName(a)[|a|..] == RECREATING_SUFFIX;
    assert |StashName(a)| == |a| + |RECREATING_SUFFIX|;
    if StashName(a) == StashName(b) {
      assert a == StashName(a)[..|a|] == StashName(b)[..|b|] == b;
    }
  }
}
