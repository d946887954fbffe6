/** What one pass of the broker's lease check does to the directory: what it
    keeps, what it may miss, and the pass it was evidently meant to be. */
module LeaseSweep {
  import opened Common
  import opened ClientCollection
  import opened Broker

  predicate Live(e: Entry, now: int) {
    now <= e.client.endOfLease
  }

  /** The sweep never removes a client whose lease still runs at `now`, nor an
      entry before the index it starts from. */
  lemma {:induction false} SweepKeepsLive(s: seq<Entry>, i: nat, now: int)
    ensures forall j :: 0 <= j < |s| && (j < i || Live(s[j], now)) ==> s[j] in SweptFrom(s, i, now)
    decreases |s| - i
  {
    if i < |s| {
      if s[i].client.endOfLease < now {
        SweepKeepsLive(Remove(s, i), i + 1, now);
        RemoveShifts(s, i);
        forall j | 0 <= j < |s| && (j < i || Live(s[j], now)) ensures s[j] in SweptFrom(s, i, now) {
          if j < i {
            assert Remove(s, i)[j] == s[j];
          } else {
            assert j != i && Remove(s, i)[j - 1] == s[j];
          }
        }
      } else {
        SweepKeepsLive(s, i + 1, now);
      }
    }
  }

  /** The sweep only removes entries: what is left is a sub-multiset of the
      directory it started from. */
  lemma {:induction false} SweepOnlyRemoves(s: seq<Entry>, i: nat, now: int)
    ensures multiset(SweptFrom(s, i, now)) <= multiset(s)
    decreases |s| - i
  {
    if i < |s| {
      if s[i].client.endOfLease < now {
        SweepOnlyRemoves(Remove(s, i), i + 1, now);
        RemoveShifts(s, i);
      } else {
        SweepOnlyRemoves(s, i + 1, now);
      }
    }
  }

  /** As written, the pass misses an expired client that directly follows
      another expired one: with both leases over, the second survives. */
  lemma SweepSkipsAfterRemoval()
    ensures var a, b := Entry("client1", Client(Addr("a", 1), 0)), Entry("client2", Client(Addr("b", 1), 0));
            && !Live(a, 1) && !Live(b, 1)
            && SweptFrom([a, b], 0, 1) == [b]
  {
    var a, b := Entry("client1", Client(Addr("a", 1), 0)), Entry("client2", Client(Addr("b", 1), 0));
    assert Remove([a, b], 0) == [b];
  }

  /** The entries of `s` whose lease still runs, in order. */
  function LiveEntries(s: seq<Entry>, now: int): (r: seq<Entry>)
    ensures |r| <= |s|
  {
    if |s| == 0 then []
    else if Live(s[0], now) then [s[0]] + LiveEntries(s[1..], now)
    else LiveEntries(s[1..], now)
  }

  /** An entry survives the filter exactly when it is in `s` and live. */
  lemma {:induction false} LiveEntriesExact(s: seq<Entry>, now: int, e: Entry)
    ensures e in LiveEntries(s, now) <==> e in s && Live(e, now)
  {
    if |s| > 0 {
      LiveEntriesExact(s[1..], now, e);
      assert s == [s[0]] + s[1..];
    }
  }

  /** Where no two adjacent entries from `i` on are both expired, the pass as
      written keeps what lies before `i` and removes exactly the expired
      entries after it, keeping the order of the others. */
  lemma {:induction false} SweptFromFilters(s: seq<Entry>, i: nat, now: int)
    requires i <= |s|
    requires forall j :: i <= j < |s| - 1 ==> Live(s[j], now) || Live(s[j + 1], now)
    ensures SweptFrom(s, i, now) == s[..i] + LiveEntries(s[i..], now)
    decreases |s| - i
  {
    if i == |s| {
      assert s[i..] == [];
    } else {
      assert s[i..][0] == s[i] && s[i..][1..] == s[i + 1..];
      if s[i].client.endOfLease < now {
        var r := Remove(s, i);
        if i == |s| - 1 {
          assert s[i + 1..] == [];
          assert r == s[..i];
        } else {
          RemoveSlices(s, i);
          assert s[i + 1..][0] == s[i + 1] && s[i + 1..][1..] == s[i + 2..];
          SweptFromFilters(r, i + 1, now);
        }
      } else {
        SweptFromFilters(s, i + 1, now);
        assert s[..i + 1] == s[..i] + [s[i]];
      }
    }
  }

  /** Removing entry `i` before its last entry, as slices. */
  lemma RemoveSlices(s: seq<Entry>, i: nat)
    requires i + 1 < |s|
    ensures Remove(s, i)[..i + 1] == s[..i] + [s[i + 1]]
    ensures Remove(s, i)[i + 1..] == s[i + 2..]
    ensures forall j :: i + 1 <= j < |s| - 1 ==> Remove(s, i)[j] == s[j + 1]
  {
    RemoveShifts(s, i);
  }

  /** So a pass from the start over a directory without two adjacent expired
      clients removes exactly the expired ones. */
  lemma SweptFromExactWithoutAdjacentExpired(s: seq<Entry>, now: int)
    requires forall j :: 0 <= j < |s| - 1 ==> Live(s[j], now) || Live(s[j + 1], now)
    ensures SweptFrom(s, 0, now) == LiveEntries(s, now)
    ensures forall e :: e in SweptFrom(s, 0, now) <==> e in s && Live(e, now)
  {
    SweptFromFilters(s, 0, now);
    assert s[..0] == [] && s[0..] == s;
    forall e ensures e in SweptFrom(s, 0, now) <==> e in s && Live(e, now) {
      LiveEntriesExact(s, now, e);
    }
  }

  /** The pass as evidently intended: after a removal the index stays, so the
      entry that slides into the slot is examined too. */
  function SweptAllFrom(s: seq<Entry>, i: nat, now: int): seq<Entry>
    decreases |s| - i
  {
    if |s| <= i then s
    else if s[i].client.endOfLease < now then SweptAllFrom(Remove(s, i), i, now)
    else SweptAllFrom(s, i + 1, now)
  }

  /** The intended pass keeps what lies before `i` and filters the rest. */
  lemma {:induction false} SweptAllFromFilters(s: seq<Entry>, i: nat, now: int)
    requires i <= |s|
    ensures SweptAllFrom(s, i, now) == s[..i] + LiveEntries(s[i..], now)
    decreases |s| - i
  {
    if i == |s| {
      assert s[i..] == [];
    } else {
      assert s[i..][0] == s[i] && s[i..][1..] == s[i + 1..];
      if s[i].client.endOfLease < now {
        var r := Remove(s, i);
        SweptAllFromFilters(r, i, now);
        assert r[..i] == s[..i] && r[i..] == s[i + 1..];
      } else {
        SweptAllFromFilters(s, i + 1, now);
        assert s[..i + 1] == s[..i] + [s[i]];
      }
    }
  }

  /** One intended pass removes exactly the expired clients and keeps the
      order of the others. */
  lemma SweptAllExact(s: seq<Entry>, now: int)
    ensures SweptAllFrom(s, 0, now) == LiveEntries(s, now)
    ensures forall e :: e in SweptAllFrom(s, 0, now) <==> e in s && Live(e, now)
  {
    SweptAllFromFilters(s, 0, now);
    assert s[..0] == [] && s[0..] == s;
    forall e ensures e in SweptAllFrom(s, 0, now) <==> e in s && Live(e, now) {
      LiveEntriesExact(s, now, e);
    }
  }
}
