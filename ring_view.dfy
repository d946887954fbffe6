/** What the tanks believe about their neighbours, as the NeighbourUpdate
    messages of the broker leave it, and when that belief agrees with the
    broker's directory. */
module RingView {
  import opened Common
  import opened ClientCollection
  import opened Broker

  /** A tank's left and right neighbour fields; None is a field never set. */
  datatype Neighbours = Neighbours(left: Option<Addr>, right: Option<Addr>)

  /** The neighbour fields of every tank, by address. */
  type View = map<Addr, Neighbours>

  /** A tank receiving one message: a NeighbourUpdate sets the named side,
      every other payload leaves the neighbour fields alone. */
  function Deliver(v: View, m: Send): View {
    match m.payload
    case NeighbourUpdate(side, a) =>
      var cur := if m.to in v then v[m.to] else Neighbours(None, None);
      v[m.to := if side == Left then cur.(left := Some(a)) else cur.(right := Some(a))]
    case _ => v
  }

  /** Messages delivered in the order they were sent. */
  function DeliverAll(v: View, ms: seq<Send>): View
    decreases |ms|
  {
    if |ms| == 0 then v else DeliverAll(Deliver(v, ms[0]), ms[1..])
  }

  lemma {:induction false} DeliverAllAppend(v: View, a: seq<Send>, b: seq<Send>)
    ensures DeliverAll(v, a + b) == DeliverAll(DeliverAll(v, a), b)
    decreases |a|
  {
    if |a| == 0 {
      assert a + b == b;
    } else {
      assert (a + b)[0] == a[0];
      assert (a + b)[1..] == a[1..] + b;
      DeliverAllAppend(Deliver(v, a[0]), a[1..], b);
    }
  }

  /** Delivering two messages in a row. */
  lemma DeliverTwo(v: View, m0: Send, m1: Send)
    ensures DeliverAll(v, [m0, m1]) == Deliver(Deliver(v, m0), m1)
  {
    var w := Deliver(Deliver(v, m0), m1);
    assert [m0, m1][1..] == [m1];
    assert [m1][1..] == [];
    assert DeliverAll(Deliver(v, m0), [m1]) == DeliverAll(w, []) == w;
  }

  /** Delivering four messages in a row. */
  lemma DeliverFour(v: View, m0: Send, m1: Send, m2: Send, m3: Send)
    ensures DeliverAll(v, [m0, m1, m2, m3]) == Deliver(Deliver(Deliver(Deliver(v, m0), m1), m2), m3)
  {
    assert [m0, m1, m2, m3][1..] == [m1, m2, m3];
    assert [m1, m2, m3][1..] == [m2, m3];
    DeliverTwo(Deliver(Deliver(v, m0), m1), m2, m3);
  }

  /** Every tank of the directory knows its directory neighbours on both sides. */
  ghost predicate Consistent(v: View, s: seq<Entry>) {
    forall j :: 0 <= j < |s| ==> KnowsNeighbours(v, s, j)
  }

  /** The tank of entry `j` knows its directory neighbours on both sides. */
  ghost predicate KnowsNeighbours(v: View, s: seq<Entry>, j: nat)
    requires j < |s|
  {
    s[j].client.addr in v &&
    v[s[j].client.addr] == Neighbours(Some(LeftNeighbourOf(s, j).addr), Some(RightNeighbourOf(s, j).addr))
  }

  /** Neighbours in the directory after removing entry `i`, in terms of the
      directory before: only the two neighbours of `i` see a change, and they
      now face each other. */
  lemma RemoveNeighbours(s: seq<Entry>, i: nat, j: nat)
    requires 2 <= |s| && i < |s| && j < |s| - 1
    ensures var j' := if j < i then j else j + 1;
            var n := |s|;
            && Remove(s, i)[j] == s[j']
            && LeftNeighbourOf(Remove(s, i), j)
               == (if j' == RightIndex(i, n) then s[LeftIndex(i, n)].client else LeftNeighbourOf(s, j'))
            && RightNeighbourOf(Remove(s, i), j)
               == (if j' == LeftIndex(i, n) then s[RightIndex(i, n)].client else RightNeighbourOf(s, j'))
  {
    RemoveShifts(s, i);
  }

  /** Deregistration keeps the tanks' view consistent: once the two updates are
      delivered, the view agrees with the directory without the entry. */
  lemma DeregisterKeepsConsistent(v: View, s: seq<Entry>, i: nat)
    requires DistinctAddrs(s) && Consistent(v, s) && i < |s|
    ensures Consistent(DeliverAll(v, DeregisterMessages(s, i)), Remove(s, i))
  {
    var n := |s|;
    var ms := DeregisterMessages(s, i);
    var la, ra := LeftNeighbourOf(s, i).addr, RightNeighbourOf(s, i).addr;
    var v1 := Deliver(v, ms[0]);
    var v2 := Deliver(v1, ms[1]);
    assert ms == [ms[0], ms[1]];
    DeliverTwo(v, ms[0], ms[1]);
    var r := Remove(s, i);
    forall j | 0 <= j < |r| ensures KnowsNeighbours(v2, r, j) {
      RemoveNeighbours(s, i, j);
      var j' := if j < i then j else j + 1;
      var a := s[j'].client.addr;
      assert KnowsNeighbours(v, s, j');
      assert a == la <==> j' == LeftIndex(i, n);
      assert a == ra <==> j' == RightIndex(i, n);
      assert v2[a] == Neighbours(if a == ra then Some(la) else v[a].left, if a == la then Some(ra) else v[a].right);
    }
  }

  /** Neighbours after appending `e` at the tail, in terms of those before:
      only the first and the last old entries see a change. */
  lemma AddNeighbours(s: seq<Entry>, e: Entry, j: nat)
    requires j < |s|
    ensures (s + [e])[j] == s[j]
    ensures LeftNeighbourOf(s + [e], j) == if j == 0 then e.client else LeftNeighbourOf(s, j)
    ensures RightNeighbourOf(s + [e], j) == if j == |s| - 1 then e.client else RightNeighbourOf(s, j)
  {
  }

  /** A first registration keeps the tanks' view consistent: once its
      messages are delivered, every tank, the new one included, knows its
      neighbours in the grown directory. */
  lemma RegisterFreshKeepsConsistent(v: View, s: seq<Entry>, id: string, c: Client)
    requires DistinctAddrs(s) && Consistent(v, s) && IndexOfClient(s, c) == -1
    ensures Consistent(DeliverAll(v, RegisterMessages(Add(s, id, c), id)), Add(s, id, c))
  {
    var t := Add(s, id, c);
    var n := |t|;
    var ms := RegisterMessages(t, id);
    var me := c.addr;
    var l, r := LeftNeighbourOf(t, n - 1).addr, RightNeighbourOf(t, n - 1).addr;
    var v1 := Deliver(v, ms[0]);
    var v2 := Deliver(v1, ms[1]);
    var v3 := Deliver(v2, ms[2]);
    var v4 := Deliver(v3, ms[3]);
    assert DeliverAll(v, ms) == v4 by {
      assert ms == ms[..4] + ms[4..];
      DeliverAllAppend(v, ms[..4], ms[4..]);
      assert ms[..4] == [ms[0], ms[1], ms[2], ms[3]];
      DeliverFour(v, ms[0], ms[1], ms[2], ms[3]);
      var rest := ms[4..];
      assert forall k :: 0 <= k < |rest| ==> !rest[k].payload.NeighbourUpdate?;
      DeliverAllIgnoresOthers(v4, rest);
    }
    forall j | 0 <= j < n ensures KnowsNeighbours(v4, t, j) {
      if j < |s| {
        assert KnowsNeighbours(v, s, j);
        AddNeighbours(s, Entry(id, c), j);
        assert t[j].client.addr != me;
        assert t[j].client.addr == l <==> j == |s| - 1;
        assert t[j].client.addr == r <==> j == 0;
      }
    }
  }

  /** A lease pass as written keeps the tanks' view consistent: once its
      messages are delivered in order, every tank left in the directory knows
      its neighbours, and a client the pass skips keeps correct neighbours too. */
  lemma {:induction false} SweepKeepsConsistent(v: View, s: seq<Entry>, i: nat, now: int)
    requires DistinctIds(s) && DistinctAddrs(s) && Consistent(v, s)
    ensures Consistent(DeliverAll(v, SweepMessages(s, i, now)), SweptFrom(s, i, now))
    decreases |s| - i
  {
    if i < |s| {
      if s[i].client.endOfLease < now {
        DeregisterKeepsConsistent(v, s, i);
        RemoveKeepsDistinct(s, i);
        DeliverAllAppend(v, DeregisterMessages(s, i), SweepMessages(Remove(s, i), i + 1, now));
        SweepKeepsConsistent(DeliverAll(v, DeregisterMessages(s, i)), Remove(s, i), i + 1, now);
      } else {
        SweepKeepsConsistent(v, s, i + 1, now);
      }
    }
  }

  /** Messages other than NeighbourUpdates leave the view as it is. */
  lemma {:induction false} DeliverAllIgnoresOthers(v: View, ms: seq<Send>)
    requires forall k :: 0 <= k < |ms| ==> !ms[k].payload.NeighbourUpdate?
    ensures DeliverAll(v, ms) == v
    decreases |ms|
  {
    if |ms| > 0 {
      assert Deliver(v, ms[0]) == v;
      DeliverAllIgnoresOthers(v, ms[1..]);
    }
  }

  /** Renewal as written: the entry moves to the tail and only its new
      neighbours hear of it. In the ring a, b, c (each tank knowing its
      neighbours), b registering again leaves a believing that b is its right
      neighbour, although the directory now reads a, c, b. */
  lemma RenewalLeavesStaleNeighbours()
    ensures var a, b, c := Addr("a", 1), Addr("b", 1), Addr("c", 1);
            var s := [Entry("client1", Client(a, 0)), Entry("client2", Client(b, 0)), Entry("client3", Client(c, 0))];
            var v := map[a := Neighbours(Some(c), Some(b)), b := Neighbours(Some(a), Some(c)), c := Neighbours(Some(b), Some(a))];
            var t := Add(Remove(s, 1), "client2", Client(b, LeaseTime));
            && IndexOfClient(s, Client(b, 0)) == 1
            && Consistent(v, s)
            && !Consistent(DeliverAll(v, RegisterMessages(t, "client2")), t)
  {
    var a, b, c := Addr("a", 1), Addr("b", 1), Addr("c", 1);
    var s := [Entry("client1", Client(a, 0)), Entry("client2", Client(b, 0)), Entry("client3", Client(c, 0))];
    var v := map[a := Neighbours(Some(c), Some(b)), b := Neighbours(Some(a), Some(c)), c := Neighbours(Some(b), Some(a))];
    assert KnowsNeighbours(v, s, 0) && KnowsNeighbours(v, s, 1) && KnowsNeighbours(v, s, 2);
    var t := Add(Remove(s, 1), "client2", Client(b, LeaseTime));
    assert t == [s[0], s[2], Entry("client2", Client(b, LeaseTime))];
    var ms := RegisterMessages(t, "client2");
    assert ms == [ms[0], ms[1], ms[2], ms[3]] + ms[4..];
    DeliverAllAppend(v, [ms[0], ms[1], ms[2], ms[3]], ms[4..]);
    DeliverFour(v, ms[0], ms[1], ms[2], ms[3]);
    DeliverAllIgnoresOthers(Deliver(Deliver(Deliver(Deliver(v, ms[0]), ms[1]), ms[2]), ms[3]), ms[4..]);
    var w := DeliverAll(v, ms);
    assert w[a] == Neighbours(Some(b), Some(b));
    assert !KnowsNeighbours(w, t, 0);
  }

  /** Renewal as intended: the renewed entry's former neighbours are first
      told about each other, as deregistration tells them, and then the
      messages of a registration at the tail follow. */
  function RenewalMessages(s: seq<Entry>, i: nat, c: Client): seq<Send>
    requires i < |s|
  {
    DeregisterMessages(s, i) + RegisterMessages(Add(Remove(s, i), s[i].id, c), s[i].id)
  }

  /** With those messages a renewal keeps every tank's view consistent. */
  lemma RenewalKeepsConsistent(v: View, s: seq<Entry>, i: nat, c: Client)
    requires DistinctIds(s) && DistinctAddrs(s) && Consistent(v, s)
    requires i < |s| && SameClient(s[i].client, c)
    ensures Consistent(DeliverAll(v, RenewalMessages(s, i, c)), Add(Remove(s, i), s[i].id, c))
  {
    var r := Remove(s, i);
    DeliverAllAppend(v, DeregisterMessages(s, i), RegisterMessages(Add(r, s[i].id, c), s[i].id));
    DeregisterKeepsConsistent(v, s, i);
    RemoveKeepsDistinct(s, i);
    IndexOfClientIgnoresLease(r, c.addr, c.endOfLease, s[i].client.endOfLease);
    RegisterFreshKeepsConsistent(DeliverAll(v, DeregisterMessages(s, i)), r, s[i].id, c);
  }
}
