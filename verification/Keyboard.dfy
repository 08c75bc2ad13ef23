/** Keys held on the keyboard, in press order, and the keys hidden from the
    computer until they are released. */
module Keyboard {
  const KEY_CAPACITY: nat := 32
  const VISIBLE_MAX: nat := 6

  /** Held or hidden modifiers and keys. */
  datatype Keys = Keys(modifiers: set<nat>, keys: seq<int>)

  const NO_KEYS := Keys({}, [])

  predicate Distinct(keys: seq<int>) {
    forall i, j :: 0 <= i < j < |keys| ==> keys[i] != keys[j]
  }

  /** The keys that are among `these`, in order. */
  function Keep(keys: seq<int>, these: seq<int>): (r: seq<int>)
    ensures |r| <= |keys|
  {
    if keys == [] then [] else (if keys[0] in these then [keys[0]] else []) + Keep(keys[1..], these)
  }

  /** The keys that are not among `these`, in order. */
  function Drop(keys: seq<int>, these: seq<int>): (r: seq<int>)
    ensures |r| <= |keys|
  {
    if keys == [] then [] else (if keys[0] in these then [] else [keys[0]]) + Drop(keys[1..], these)
  }

  lemma {:induction false} KeepMembers(keys: seq<int>, these: seq<int>)
    ensures forall k :: k in Keep(keys, these) <==> k in keys && k in these
  {
    if keys != [] {
      KeepMembers(keys[1..], these);
    }
  }

  lemma {:induction false} DropMembers(keys: seq<int>, these: seq<int>)
    ensures forall k :: k in Drop(keys, these) <==> k in keys && k !in these
  {
    if keys != [] {
      DropMembers(keys[1..], these);
    }
  }

  /** The new keys: those still down keep their order, new ones follow. */
  function Snapshot(before: Keys, now: Keys): (r: Keys)
    ensures forall k :: k in r.keys <==> k in now.keys
    ensures r.modifiers == now.modifiers
  {
    KeepMembers(before.keys, now.keys);
    DropMembers(now.keys, before.keys);
    Keys(now.modifiers, Keep(before.keys, now.keys) + Drop(now.keys, before.keys))
  }

  /** What stays hidden: only what is still down. */
  function StillHidden(hidden: Keys, down: Keys): (r: Keys)
    ensures forall k :: k in r.keys <==> k in hidden.keys && k in down.keys
    ensures r.modifiers == hidden.modifiers * down.modifiers
  {
    KeepMembers(hidden.keys, down.keys);
    Keys(hidden.modifiers * down.modifiers, Keep(hidden.keys, down.keys))
  }

  /** Hides every key after the first `limit` visible ones; `seen` are counted. */
  function HideAfter(hidden: seq<int>, keys: seq<int>, seen: nat, limit: nat): (r: seq<int>)
    ensures forall k :: k in hidden ==> k in r
    ensures forall k :: k in r ==> k in hidden || k in keys
    decreases |keys|
  {
    if keys == [] then hidden
    else if keys[0] in hidden then HideAfter(hidden, keys[1..], seen, limit)
    else if seen < limit then HideAfter(hidden, keys[1..], seen + 1, limit)
    else HideAfter(hidden + [keys[0]], keys[1..], seen, limit)
  }

  /** What the computer is shown. */
  function Visible(down: Keys, hidden: Keys): (r: Keys)
    ensures forall k :: k in r.keys <==> k in down.keys && k !in hidden.keys
  {
    DropMembers(down.keys, hidden.keys);
    Keys(down.modifiers - hidden.modifiers, Drop(down.keys, hidden.keys))
  }

  /** A report holds the first six visible keys. */
  function Shown(down: Keys, hidden: Keys): (r: Keys)
    ensures |r.keys| <= VISIBLE_MAX
    ensures forall k :: k in r.keys ==> k in down.keys && k !in hidden.keys
    ensures r.modifiers == down.modifiers - hidden.modifiers
  {
    var v := Visible(down, hidden);
    if |v.keys| <= VISIBLE_MAX then v
    else
      assert forall k :: k in v.keys[..VISIBLE_MAX] ==> k in v.keys;
      v.(keys := v.keys[..VISIBLE_MAX])
  }

  // ---------------------------------------------------------------- lemmas

  lemma {:induction false} KeepDistinct(keys: seq<int>, these: seq<int>)
    requires Distinct(keys)
    ensures Distinct(Keep(keys, these))
  {
    if keys != [] {
      KeepDistinct(keys[1..], these);
      KeepMembers(keys[1..], these);
      assert keys[0] !in keys[1..];
      assert keys[0] !in Keep(keys[1..], these);
    }
  }

  lemma {:induction false} DropDistinct(keys: seq<int>, these: seq<int>)
    requires Distinct(keys)
    ensures Distinct(Drop(keys, these))
  {
    if keys != [] {
      DropDistinct(keys[1..], these);
      DropMembers(keys[1..], these);
      assert keys[0] !in keys[1..];
      assert keys[0] !in Drop(keys[1..], these);
    }
  }

  lemma {:induction false} DistinctSize(keys: seq<int>)
    requires Distinct(keys)
    ensures |set k | k in keys| == |keys|
  {
    if keys != [] {
      DistinctSize(keys[1..]);
      assert (set k | k in keys) == {keys[0]} + (set k | k in keys[1..]);
      assert keys[0] !in keys[1..];
    }
  }

  /** A snapshot never needs more room than the keys it shows, so a keyboard of
      32 keys never runs out. */
  lemma SnapshotFits(before: Keys, now: Keys)
    requires Distinct(before.keys) && Distinct(now.keys)
    ensures Distinct(Snapshot(before, now).keys) && |Snapshot(before, now).keys| == |now.keys|
  {
    KeepDistinct(before.keys, now.keys);
    DropDistinct(now.keys, before.keys);
    KeepMembers(before.keys, now.keys);
    DropMembers(now.keys, before.keys);
    var kept, added := Keep(before.keys, now.keys), Drop(now.keys, before.keys);
    var r := Snapshot(before, now).keys;
    forall i, j | 0 <= i < j < |r| ensures r[i] != r[j] {
      assert i < |kept| <= j ==> r[i] in kept && r[j] in added;
    }
    DistinctSize(r);
    DistinctSize(now.keys);
    assert (set k | k in r) == (set k | k in now.keys);
  }

  /** After the hiding pass at most `limit` keys are visible: a report is never
      cut off. */
  lemma {:induction false} HideAfterFits(hidden: seq<int>, keys: seq<int>, seen: nat, limit: nat)
    requires seen <= limit
    ensures |Drop(keys, HideAfter(hidden, keys, seen, limit))| + seen <= limit
    decreases |keys|
  {
    if keys != [] {
      var r := HideAfter(hidden, keys, seen, limit);
      if keys[0] in hidden {
        HideAfterFits(hidden, keys[1..], seen, limit);
      } else if seen < limit {
        HideAfterFits(hidden, keys[1..], seen + 1, limit);
      } else {
        HideAfterFits(hidden + [keys[0]], keys[1..], seen, limit);
        assert keys[0] in hidden + [keys[0]];
      }
    }
  }

  /** At most the first `n` keys. */
  function First(keys: seq<int>, n: nat): (r: seq<int>)
    ensures |r| <= n && r <= keys
  {
    if |keys| <= n then keys else keys[..n]
  }

  lemma {:induction false} DropAlike(keys: seq<int>, a: seq<int>, b: seq<int>)
    requires forall k :: k in keys ==> (k in a <==> k in b)
    ensures Drop(keys, a) == Drop(keys, b)
  {
    if keys != [] {
      var first := keys[0];
      assert first in keys;
      assert first in a <==> first in b;
      DropAlike(keys[1..], a, b);
    }
  }

  /** The hiding pass leaves exactly the first `limit` keys visible that were not
      hidden before: it hides no key without need. */
  lemma {:induction false} HideAfterIsExact(hidden: seq<int>, keys: seq<int>, seen: nat, limit: nat)
    requires Distinct(keys) && seen <= limit
    ensures Drop(keys, HideAfter(hidden, keys, seen, limit)) == First(Drop(keys, hidden), limit - seen)
    decreases |keys|
  {
    if keys != [] {
      var r, rest := HideAfter(hidden, keys, seen, limit), keys[1..];
      assert forall i :: 0 <= i < |rest| ==> rest[i] == keys[i + 1];
      if keys[0] in hidden {
        HideAfterIsExact(hidden, rest, seen, limit);
      } else if seen < limit {
        HideAfterIsExact(hidden, rest, seen + 1, limit);
        assert keys[0] !in rest && keys[0] !in r;
        assert Drop(keys, r) == [keys[0]] + First(Drop(rest, hidden), limit - seen - 1);
      } else {
        HideAfterIsExact(hidden + [keys[0]], rest, seen, limit);
      }
    }
  }

  /** Keys that stay down come before new ones, in the order they were in. */
  lemma SnapshotKeepsOrder(before: Keys, now: Keys, i: nat, j: nat)
    requires Distinct(before.keys) && Distinct(now.keys) && i < j < |Snapshot(before, now).keys|
    ensures var r := Snapshot(before, now).keys;
      r[j] in before.keys ==> exists p, q :: 0 <= p < q < |before.keys| && before.keys[p] == r[i] && before.keys[q] == r[j]
  {
    var kept, added := Keep(before.keys, now.keys), Drop(now.keys, before.keys);
    var r := Snapshot(before, now).keys;
    DropMembers(now.keys, before.keys);
    assert j >= |kept| ==> r[j] in added;
    if r[j] in before.keys {
      KeepKeepsOrder(before.keys, now.keys, i, j);
    }
  }

  lemma {:induction false} KeepKeepsOrder(keys: seq<int>, these: seq<int>, i: nat, j: nat)
    requires i < j < |Keep(keys, these)|
    ensures exists p, q :: 0 <= p < q < |keys| && keys[p] == Keep(keys, these)[i] && keys[q] == Keep(keys, these)[j]
  {
    var rest := keys[1..];
    if keys[0] !in these {
      KeepKeepsOrder(rest, these, i, j);
      var p, q :| 0 <= p < q < |rest| && rest[p] == Keep(rest, these)[i] && rest[q] == Keep(rest, these)[j];
      assert keys[p + 1] == rest[p] && keys[q + 1] == rest[q];
    } else if i > 0 {
      KeepKeepsOrder(rest, these, i - 1, j - 1);
      var p, q :| 0 <= p < q < |rest| && rest[p] == Keep(rest, these)[i - 1] && rest[q] == Keep(rest, these)[j - 1];
      assert keys[p + 1] == rest[p] && keys[q + 1] == rest[q];
    } else {
      KeepMembers(rest, these);
      assert Keep(keys, these)[j] == Keep(rest, these)[j - 1];
      assert Keep(rest, these)[j - 1] in Keep(rest, these);
      var q :| 0 <= q < |rest| && rest[q] == Keep(keys, these)[j];
      assert keys[0] == Keep(keys, these)[0] && keys[q + 1] == rest[q];
    }
  }

  // ----------------------------------------------------------------- loops

  lemma KeepStep(done: seq<int>, r: seq<int>, index: nat, these: seq<int>)
    requires index < |r| && done == r[..index]
    ensures r[index] in these ==> done + Keep(r[index..], these) == r[..index + 1] + Keep(r[index + 1..], these)
    ensures r[index] !in these ==> Keep(r[index..], these) == Keep(r[index + 1..], these)
  {
    assert r[index..][1..] == r[index + 1..];
    assert r[..index + 1] == done + [r[index]];
  }

  lemma {:induction false} DropAppend(a: seq<int>, b: seq<int>, these: seq<int>)
    ensures Drop(a + b, these) == Drop(a, these) + Drop(b, these)
  {
    if a == [] {
      assert a + b == b;
    } else {
      assert (a + b)[1..] == a[1..] + b;
      DropAppend(a[1..], b, these);
    }
  }

  /** The in-place removal loop that both the keyboard and the suppression use. */
  method RetainKeys(keys: seq<int>, these: seq<int>) returns (r: seq<int>)
    ensures r == Keep(keys, these)
  {
    r := keys;
    var index := 0;
    while index < |r|
      invariant 0 <= index <= |r|
      invariant r[..index] + Keep(r[index..], these) == Keep(keys, these)
      decreases |r| - index
    {
      KeepStep(r[..index], r, index, these);
      if r[index] in these {
        index := index + 1;
      } else {
        var next := r[..index] + r[index + 1..];
        assert next[index..] == r[index + 1..] && next[..index] == r[..index];
        r := next;
      }
    }
    assert r[..index] == r && r[index..] == [];
  }

  /** Adds the keys that are down and not known yet. */
  method PressAll(kept: seq<int>, now: seq<int>, before: seq<int>) returns (keys: seq<int>)
    requires Distinct(now) && kept == Keep(before, now)
    ensures keys == kept + Drop(now, before)
  {
    keys := kept;
    var i := 0;
    while i < |now|
      invariant 0 <= i <= |now|
      invariant keys == kept + Drop(now[..i], before)
    {
      DropAppend(now[..i], [now[i]], before);
      assert now[..i + 1] == now[..i] + [now[i]];
      KnownAlready(before, now, i);
      if now[i] !in keys {
        keys := keys + [now[i]];
      }
      i := i + 1;
    }
    assert now[..i] == now;
  }

  /** Before its turn a key is in the list exactly when it was down before. */
  lemma KnownAlready(before: seq<int>, now: seq<int>, i: nat)
    requires Distinct(now) && i < |now|
    ensures now[i] in Keep(before, now) + Drop(now[..i], before) <==> now[i] in before
  {
    var k := now[i];
    assert k !in now[..i];
    KeepMembers(before, now);
    DropMembers(now[..i], before);
    assert k in Keep(before, now) <==> k in before;
    assert k !in Drop(now[..i], before);
  }

  /** Takes over what is down now. */
  method ApplySnapshot(before: Keys, now: Keys, hidden: Keys) returns (after: Keys, hidden': Keys)
    requires Distinct(now.keys)
    ensures after == Snapshot(before, now) && hidden' == StillHidden(hidden, after)
  {
    var kept := RetainKeys(before.keys, now.keys);
    var keys := PressAll(kept, now.keys, before.keys);
    after := Keys(now.modifiers, keys);
    var still := RetainKeys(hidden.keys, keys);
    hidden' := Keys(hidden.modifiers * after.modifiers, still);
  }

  /** Keeps a stable window of `limit` keys; returns how many keys were hidden. */
  method SuppressVisibleAfter(hidden: seq<int>, keys: seq<int>, limit: nat) returns (r: seq<int>, added: nat)
    ensures r == HideAfter(hidden, keys, 0, limit)
    ensures |r| == |hidden| + added
    ensures |Drop(keys, r)| <= limit
  {
    r := hidden;
    added := 0;
    var visible := 0;
    var i := 0;
    while i < |keys|
      invariant 0 <= i <= |keys|
      invariant HideAfter(r, keys[i..], visible, limit) == HideAfter(hidden, keys, 0, limit)
      invariant |r| == |hidden| + added
    {
      assert keys[i..][1..] == keys[i + 1..];
      if keys[i] in r {
      } else if visible < limit {
        visible := visible + 1;
      } else {
        r := r + [keys[i]];
        added := added + 1;
      }
      i := i + 1;
    }
    HideAfterFits(hidden, keys, 0, limit);
  }
}
