/**
 * The robot registries of src/game_state.py: per team a dictionary from robot
 * name to robot, kept in insertion order. Here a registry is the sequence of its
 * robots in that order; a name lookup, a removal by key and the scan for a robot
 * standing on a cell are the dictionary operations the rules engine uses.
 */
module Registries {
  import opened Errors
  import opened Grid
  import opened Robots

  /** No robot appears twice (dictionary keys are unique). */
  predicate NoDup(s: seq<Robot>) {
    forall i, j :: 0 <= i < j < |s| ==> s[i] != s[j]
  }

  /** Where the robot named `name` sits in `s`: -1 when there is none, else the first such position. */
  function Find(s: seq<Robot>, name: string): (k: int)
    ensures -1 <= k < |s|
    ensures k == -1 <==> forall i :: 0 <= i < |s| ==> s[i].name != name
    ensures k >= 0 ==> s[k].name == name && forall i :: 0 <= i < k ==> s[i].name != name
  {
    if s == [] then -1
    else if s[0].name == name then 0
    else
      var k := Find(s[1..], name);
      if k == -1 then -1 else k + 1
  }

  /** `s` with robot `x` removed, the others keeping their order (dict.pop). */
  function Without(s: seq<Robot>, x: Robot): (r: seq<Robot>)
    ensures forall y :: y in r ==> y in s && y != x
    ensures forall y :: y in s && y != x ==> y in r
    ensures |r| <= |s|
    ensures x !in s ==> r == s
    ensures NoDup(s) ==> NoDup(r)
    ensures NoDup(s) && x in s ==> |r| == |s| - 1
  {
    if s == [] then []
    else if s[0] == x then Without(s[1..], x)
    else
      var t := Without(s[1..], x);
      assert NoDup(s) ==> s[0] !in s[1..];
      [s[0]] + t
  }

  /** The first robot of `s` standing on `p`, if any. */
  function FirstAt(s: seq<Robot>, p: Pos): (k: Option<nat>)
    reads s
    ensures k.Some? ==> k.value < |s| && s[k.value].Coord() == p
    ensures k.Some? ==> forall i :: 0 <= i < k.value ==> s[i].Coord() != p
    ensures k.None? <==> forall i :: 0 <= i < |s| ==> s[i].Coord() != p
  {
    if s == [] then None
    else if s[0].Coord() == p then Some(0)
    else
      match FirstAt(s[1..], p)
      case None => None
      case Some(k) => Some(k + 1)
  }

  /**
   * The removal move_robot applies to the robot named `name` it collided with:
   * looked up among the blue robots first, then among the red ones; None when
   * neither holds it. The result holds both registries and the robot removed.
   */
  function RemoveNamed(reds: seq<Robot>, blues: seq<Robot>, name: string): (r: Option<(seq<Robot>, seq<Robot>, Robot)>)
    ensures r.Some? ==> r.value.2.name == name && (r.value.2 in reds || r.value.2 in blues)
    ensures r.Some? && r.value.2 in blues ==> r.value.0 == reds && r.value.1 == Without(blues, r.value.2)
    ensures r.Some? && r.value.2 !in blues ==> r.value.0 == Without(reds, r.value.2) && r.value.1 == blues
    ensures r.None? <==> (forall i :: 0 <= i < |reds| ==> reds[i].name != name) && (forall i :: 0 <= i < |blues| ==> blues[i].name != name)
  {
    var jb := Find(blues, name);
    if jb >= 0 then Some((reds, Without(blues, blues[jb]), blues[jb]))
    else
      var jr := Find(reds, name);
      if jr >= 0 then Some((Without(reds, reds[jr]), blues, reds[jr])) else None
  }

  /** Robots with different counter readings have different names, so a name finds one robot. */
  lemma FindIsThe(s: seq<Robot>, i: nat)
    requires i < |s|
    requires forall a, b :: a in s && b in s && a.id == b.id ==> a == b
    requires NoDup(s)
    requires forall a :: a in s ==> a.name == RobotName(a.id)
    ensures Find(s, s[i].name) == i
  {
    var k := Find(s, s[i].name);
    assert s[k] in s && s[i] in s;
    RobotNameInjective(s[k].id, s[i].id);
    assert s[k] == s[i];
  }
}
