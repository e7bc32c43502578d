/** The rotation pass of `process_entry`: a Ruby `each` over a list of backup records
    whose body deletes an expired record's files and then removes the record from the
    very list being iterated (`list.delete(bakfile)`). Ruby's `each` walks by index, so
    after a removal the next record slides into the current slot and is never looked
    at. The pass is generic here: the store it deletes from (`S`), the records (`T`),
    the expiry test and the deletion are parameters; the local and the remote rotation
    both instantiate it. */
module Rotation {

  /** The pass from index `i` on: the store, the list as it stands afterwards, and
      whether it ran to the end (`false`: a deletion raised, which ends the pass with
      the list as it stood at that moment). */
  function Sweep<S, T>(st: S, l: seq<T>, i: nat, expired: T -> bool, del: (S, T) -> (S, bool)): (S, seq<T>, bool)
    decreases |l| - i
  {
    if i >= |l| then (st, l, true)
    else if !expired(l[i]) then Sweep(st, l, i + 1, expired, del)
    else
      var d := del(st, l[i]);
      if !d.1 then (d.0, l, false)
      else Sweep(d.0, l[..i] + l[i + 1..], i + 1, expired, del)
  }

  /** The records a complete pass over `s` keeps: every record the pass finds alive,
      and every record that directly follows a removed one, whatever its age. */
  function Kept<T>(s: seq<T>, expired: T -> bool): seq<T>
    decreases |s|
  {
    if s == [] then []
    else if !expired(s[0]) then [s[0]] + Kept(s[1..], expired)
    else if |s| == 1 then []
    else [s[1]] + Kept(s[2..], expired)
  }

  /** The records a pass over `s` deletes, in the order it deletes them. */
  function Removed<T>(s: seq<T>, expired: T -> bool): seq<T>
    decreases |s|
  {
    if s == [] then []
    else if !expired(s[0]) then Removed(s[1..], expired)
    else if |s| == 1 then [s[0]]
    else [s[0]] + Removed(s[2..], expired)
  }

  /** Deleting the records of `ds` one after the other, stopping at the first that fails. */
  function DeleteAll<S, T>(st: S, ds: seq<T>, del: (S, T) -> (S, bool)): (S, bool)
    decreases |ds|
  {
    if ds == [] then (st, true)
    else
      var d := del(st, ds[0]);
      if !d.1 then (d.0, false) else DeleteAll(d.0, ds[1..], del)
  }

  /** The pass deletes exactly the records `Removed` names, in that order and with the
      same outcome; when it completes, the list is the untouched prefix followed by what
      `Kept` keeps of the rest. */
  lemma SweepOutcome<S, T>(st: S, l: seq<T>, i: nat, expired: T -> bool, del: (S, T) -> (S, bool))
    requires i <= |l|
    ensures var r := Sweep(st, l, i, expired, del);
      var d := DeleteAll(st, Removed(l[i..], expired), del);
      && r.0 == d.0 && r.2 == d.1
      && (r.2 ==> r.1 == l[..i] + Kept(l[i..], expired))
  {
    SweepDeletes(st, l, i, expired, del);
    SweepKeeps(st, l, i, expired, del);
  }

  lemma {:induction false} SweepDeletes<S, T>(st: S, l: seq<T>, i: nat, expired: T -> bool, del: (S, T) -> (S, bool))
    requires i <= |l|
    ensures var r := Sweep(st, l, i, expired, del);
      var d := DeleteAll(st, Removed(l[i..], expired), del);
      r.0 == d.0 && r.2 == d.1
    decreases |l| - i
  {
    if i < |l| && !expired(l[i]) {
      SweepDeletes(st, l, i + 1, expired, del);
      assert l[i..][1..] == l[i + 1..];
    } else if i < |l| {
      var d := del(st, l[i]);
      if d.1 {
        var l' := l[..i] + l[i + 1..];
        if i + 1 == |l| {
          assert l[i..] == [l[i]];
        } else {
          SweepDeletes(d.0, l', i + 1, expired, del);
          assert l'[i + 1..] == l[i + 2..];
          assert l[i..][2..] == l[i + 2..];
        }
      }
    }
  }

  lemma {:induction false} SweepKeeps<S, T>(st: S, l: seq<T>, i: nat, expired: T -> bool, del: (S, T) -> (S, bool))
    requires i <= |l|
    ensures var r := Sweep(st, l, i, expired, del);
      r.2 ==> r.1 == l[..i] + Kept(l[i..], expired)
    decreases |l| - i
  {
    if i == |l| {
      assert l[..i] == l;
    } else if !expired(l[i]) {
      SweepKeeps(st, l, i + 1, expired, del);
      assert l[i..][1..] == l[i + 1..];
      assert l[..i + 1] == l[..i] + [l[i]];
    } else {
      var d := del(st, l[i]);
      if d.1 {
        var l' := l[..i] + l[i + 1..];
        if i + 1 == |l| {
          assert l' == l[..i];
        } else {
          SweepKeeps(d.0, l', i + 1, expired, del);
          assert l'[i + 1..] == l[i + 2..];
          assert l'[..i + 1] == l[..i] + [l[i + 1]];
          assert l[i..][1] == l[i + 1];
          assert l[i..][2..] == l[i + 2..];
        }
      }
    }
  }

  /** A complete pass splits the list into what it keeps and what it deletes. */
  lemma {:induction false} KeptAndRemovedPartition<T>(s: seq<T>, expired: T -> bool)
    ensures multiset(Kept(s, expired)) + multiset(Removed(s, expired)) == multiset(s)
    decreases |s|
  {
    if s != [] {
      KeptAndRemovedStep(s, expired);
      HeadSplit(s);
      if !expired(s[0]) {
        KeptAndRemovedPartition(s[1..], expired);
      } else if |s| > 1 {
        KeptAndRemovedPartition(s[2..], expired);
        HeadSplit(s[1..]);
        assert s[1..][0] == s[1] && s[1..][1..] == s[2..];
      } else {
        assert s[1..] == [];
      }
    }
  }

  lemma HeadSplit<T>(s: seq<T>)
    requires s != []
    ensures multiset(s) == multiset{s[0]} + multiset(s[1..])
  {
    assert s == [s[0]] + s[1..];
  }

  /** One step of a pass: a live record is kept; an expired one is deleted and its
      successor kept. */
  lemma KeptAndRemovedStep<T>(s: seq<T>, expired: T -> bool)
    requires s != []
    ensures multiset(Kept(s, expired)) + multiset(Removed(s, expired)) ==
      if !expired(s[0]) then multiset{s[0]} + (multiset(Kept(s[1..], expired)) + multiset(Removed(s[1..], expired)))
      else if |s| == 1 then multiset{s[0]}
      else multiset{s[0], s[1]} + (multiset(Kept(s[2..], expired)) + multiset(Removed(s[2..], expired)))
  {
  }

  /** A pass deletes only expired records of the list. */
  lemma {:induction false} RemovedAreExpired<T>(s: seq<T>, expired: T -> bool)
    ensures forall k | 0 <= k < |Removed(s, expired)| :: Removed(s, expired)[k] in s && expired(Removed(s, expired)[k])
    decreases |s|
  {
    if s != [] {
      if !expired(s[0]) {
        RemovedAreExpired(s[1..], expired);
        var r := Removed(s[1..], expired);
        forall k | 0 <= k < |r| ensures r[k] in s {
          assert r[k] in s[1..];
        }
      } else if |s| > 1 {
        RemovedAreExpired(s[2..], expired);
        var r, r' := Removed(s, expired), Removed(s[2..], expired);
        assert r == [s[0]] + r';
        forall k | 0 <= k < |r| ensures r[k] in s && expired(r[k]) {
          if k > 0 {
            assert r[k] == r'[k - 1];
            assert r'[k - 1] in s[2..];
          }
        }
      }
    }
  }

  /** A record that has not expired is never deleted. */
  lemma LiveRecordsSurvive<T>(s: seq<T>, expired: T -> bool, x: T)
    requires x in s && !expired(x)
    ensures x in Kept(s, expired)
  {
    KeptAndRemovedPartition(s, expired);
    RemovedAreExpired(s, expired);
    var r := Removed(s, expired);
    assert x !in r by {
      forall k | 0 <= k < |r| ensures r[k] != x {
        assert expired(r[k]);
      }
    }
    assert multiset(Kept(s, expired))[x] == multiset(s)[x];
  }

  /** When no two expired records are neighbours, no deletion hides an expired record
      and the pass leaves none behind. */
  lemma {:induction false} KeptCleanWithoutAdjacentExpired<T>(s: seq<T>, expired: T -> bool)
    requires forall k | 0 <= k < |s| - 1 :: expired(s[k]) ==> !expired(s[k + 1])
    ensures forall k | 0 <= k < |Kept(s, expired)| :: !expired(Kept(s, expired)[k])
    decreases |s|
  {
    if s != [] {
      if !expired(s[0]) {
        forall k | 0 <= k < |s[1..]| - 1 ensures expired(s[1..][k]) ==> !expired(s[1..][k + 1]) {
          assert s[1..][k] == s[k + 1] && s[1..][k + 1] == s[k + 2];
        }
        KeptCleanWithoutAdjacentExpired(s[1..], expired);
      } else if |s| > 1 {
        forall k | 0 <= k < |s[2..]| - 1 ensures expired(s[2..][k]) ==> !expired(s[2..][k + 1]) {
          assert s[2..][k] == s[k + 2] && s[2..][k + 1] == s[k + 3];
        }
        KeptCleanWithoutAdjacentExpired(s[2..], expired);
      }
    }
  }

  /** The first expired record of the list is always deleted, so a pass over a list
      holding an expired record deletes something. */
  lemma {:induction false} FirstExpiredIsRemoved<T>(s: seq<T>, expired: T -> bool, k: int)
    requires 0 <= k < |s| && expired(s[k])
    requires forall j | 0 <= j < k :: !expired(s[j])
    ensures Removed(s, expired) != [] && Removed(s, expired)[0] == s[k]
    decreases |s|
  {
    if k > 0 {
      FirstExpiredIsRemoved(s[1..], expired, k - 1);
    }
  }

  /** Two expired neighbours: the pass deletes the first, skips the second, and only a
      second pass deletes it. Rotation is therefore not idempotent. */
  lemma SkippedNeighbourNeedsSecondPass<T>(a: T, b: T, expired: T -> bool)
    requires expired(a) && expired(b)
    ensures Kept([a, b], expired) == [b] && Removed([a, b], expired) == [a]
    ensures Kept(Kept([a, b], expired), expired) == []
  {
    assert [a, b][2..] == [];
    assert [b][1..] == [];
  }
}
