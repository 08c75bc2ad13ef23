/** The target-switch shortcut of an input profile: it fires once per press and
    release, and its keys never reach a computer while it is held. */
module InputShortcut {
  import opened Options
  import opened Keyboard

  /** A key with modifiers; key 0 means no shortcut. */
  datatype Shortcut = Shortcut(modifiers: set<nat>, key: int)

  predicate Enabled(s: Shortcut) {
    s.key != 0
  }

  /** No part of the shortcut is down. */
  predicate PartsUp(s: Shortcut, frame: Keys) {
    s.key !in frame.keys && frame.modifiers !! s.modifiers
  }

  /** Exactly the shortcut is down. */
  predicate IsChord(s: Shortcut, frame: Keys) {
    frame.keys == [s.key] && frame.modifiers == s.modifiers
  }

  datatype Captured = Captured(armed: bool, triggered: bool, frame: Keys)

  function Without(s: Shortcut, frame: Keys): Keys {
    Keys(frame.modifiers - s.modifiers, Drop(frame.keys, [s.key]))
  }

  function Capture(s: Shortcut, armed: bool, frame: Keys): Captured {
    if !Enabled(s) then Captured(true, false, frame)
    else
      var ready := armed || PartsUp(s, frame);
      var triggered := ready && s.key in frame.keys && frame.modifiers == s.modifiers && |frame.keys| == 1;
      var armed' := ready && !triggered;
      Captured(armed', triggered, if armed' then frame else Without(s, frame))
  }

  /** The check that looks ahead without changing anything. */
  predicate WouldTrigger(s: Shortcut, armed: bool, frame: Keys) {
    armed && Enabled(s) && IsChord(s, frame)
  }

  /** Looking ahead says exactly what capturing does. */
  lemma LookAheadIsExact(s: Shortcut, armed: bool, frame: Keys)
    ensures Capture(s, armed, frame).triggered <==> WouldTrigger(s, armed, frame)
  {
    if |frame.keys| == 1 {
      assert frame.keys == [frame.keys[0]];
    }
  }

  /** Unless the shortcut is armed afterwards, nothing of it is left in the frame,
      and everything else is. */
  lemma HeldShortcutIsHidden(s: Shortcut, armed: bool, frame: Keys)
    ensures var c := Capture(s, armed, frame);
      if c.armed then c.frame == frame
      else
        && PartsUp(s, c.frame) && c.frame.modifiers == frame.modifiers - s.modifiers
        && forall k :: k in c.frame.keys <==> k in frame.keys && k != s.key
  {
    DropMembers(frame.keys, [s.key]);
  }

  function ArmedAfter(s: Shortcut, frames: seq<Keys>): bool {
    if frames == [] then true else Capture(s, ArmedAfter(s, frames[..|frames| - 1]), frames[|frames| - 1]).armed
  }

  predicate TriggersAt(s: Shortcut, frames: seq<Keys>, i: nat)
    requires i < |frames|
  {
    Capture(s, ArmedAfter(s, frames[..i]), frames[i]).triggered
  }

  /** After a trigger the shortcut stays unarmed until all its parts were up. */
  lemma {:induction false} StaysUnarmed(s: Shortcut, frames: seq<Keys>, i: nat, n: nat)
    requires i < n <= |frames| && TriggersAt(s, frames, i)
    requires forall k :: i < k < n ==> !PartsUp(s, frames[k])
    ensures !ArmedAfter(s, frames[..n])
    decreases n
  {
    assert frames[..n][..n - 1] == frames[..n - 1];
    if n > i + 1 {
      StaysUnarmed(s, frames, i, n - 1);
    }
  }

  /** Once per cycle: between two triggers all parts were up in some frame. */
  lemma TriggersOncePerCycle(s: Shortcut, frames: seq<Keys>, i: nat, j: nat)
    requires i < j < |frames| && TriggersAt(s, frames, i) && TriggersAt(s, frames, j)
    ensures exists k :: i < k < j && PartsUp(s, frames[k])
  {
    if forall k :: i < k < j ==> !PartsUp(s, frames[k]) {
      StaysUnarmed(s, frames, i, j);
      LookAheadIsExact(s, ArmedAfter(s, frames[..j]), frames[j]);
    }
  }

  /** All parts were up in some frame between a trigger at `j` and frame `n`. */
  ghost predicate ReleasedBetween(s: Shortcut, frames: seq<Keys>, j: nat, n: nat)
    requires n <= |frames|
  {
    exists k :: j < k < n && PartsUp(s, frames[k])
  }

  /** Only a trigger disarms: an unarmed shortcut fired before and was not all up since. */
  lemma {:induction false} UnarmedHasFired(s: Shortcut, frames: seq<Keys>, n: nat) returns (j: nat)
    requires n <= |frames| && !ArmedAfter(s, frames[..n])
    ensures j < n && TriggersAt(s, frames, j) && !ReleasedBetween(s, frames, j, n)
    decreases n
  {
    assert n > 0;
    assert frames[..n][..n - 1] == frames[..n - 1];
    if TriggersAt(s, frames, n - 1) {
      j := n - 1;
    } else {
      j := UnarmedHasFired(s, frames, n - 1);
    }
  }

  /** The shortcut fires exactly at those frames in which exactly it is down and all
      its parts were up since every earlier time that it fired. */
  lemma TriggersExactly(s: Shortcut, frames: seq<Keys>, i: nat)
    requires i < |frames|
    ensures TriggersAt(s, frames, i) <==>
      Enabled(s) && IsChord(s, frames[i])
      && forall j :: 0 <= j < i && TriggersAt(s, frames, j) ==> ReleasedBetween(s, frames, j, i)
  {
    LookAheadIsExact(s, ArmedAfter(s, frames[..i]), frames[i]);
    if TriggersAt(s, frames, i) {
      forall j | 0 <= j < i && TriggersAt(s, frames, j) ensures ReleasedBetween(s, frames, j, i) {
        TriggersOncePerCycle(s, frames, j, i);
      }
    } else if Enabled(s) && IsChord(s, frames[i]) {
      var j := UnarmedHasFired(s, frames, i);
    }
  }

  class ShortcutCapture {
    var shortcut: Shortcut
    var armed: bool

    constructor (s: Shortcut)
      ensures shortcut == s && armed
    {
      shortcut, armed := s, true;
    }

    method CaptureFrame(keyboard: Option<Keys>) returns (triggered: bool, filtered: Option<Keys>)
      modifies this`armed
      ensures keyboard.None? ==> !triggered && filtered.None? && armed == old(armed)
      ensures keyboard.Some? ==>
        var c := Capture(shortcut, old(armed), keyboard.value);
        armed == c.armed && triggered == c.triggered && filtered == Some(c.frame)
    {
      filtered := keyboard;
      if keyboard.None? {
        return false, None;
      }
      if shortcut.key == 0 {
        armed := true;
        return false, keyboard;
      }
      var frame := keyboard.value;
      var keyDown := shortcut.key in frame.keys;
      if !keyDown && frame.modifiers !! shortcut.modifiers {
        armed := true;
      }
      triggered := armed && keyDown && frame.modifiers == shortcut.modifiers && |frame.keys| == 1;
      if triggered {
        armed := false;
      }
      if triggered || !armed {
        filtered := Some(Without(shortcut, frame));
      }
    }
  }
}
