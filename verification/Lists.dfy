/**
  Lists that are linked through memory: what their addresses spell.
 */
module Lists {

  // The address at a place of the list, 0 (the null pointer) beyond its ends.
  ghost function At(s: seq<nat>, i: int): nat {
    if 0 <= i < |s| then s[i] else 0
  }

  ghost predicate Distinct(s: seq<nat>) {
    forall i, j :: 0 <= i < j < |s| ==> s[i] != s[j]
  }
}
