/** A snapshot run across a ring of two tanks, A and C, each the other's left
    and right neighbour. A holds two fish, C two more, and one fish is on its
    way from C to A. A collects; every marker delivered matches one the
    sender logged, and every token is read from the sender's log. The
    collector receives 5, every fish counted once. */
module Scenario {
  import opened Common
  import opened Tank

  /** A fresh tank whose neighbours on both sides are `peer`, holding two fish. */
  method TankOfTwo(peer: Addr) returns (t: TankModel)
    ensures fresh(t)
    ensures t.leftNeighbour == Some(peer) && t.rightNeighbour == Some(peer)
    ensures CountPresent(t.fishies) == 2
    ensures t.recordingState == Idle && t.snapshotState == None && !t.collector
    ensures t.delivered == [] && t.outbox == []
  {
    t := new TankModel(10, 10);
    t.SetLeftNeighbour(Some(peer));
    t.SetRightNeighbour(Some(peer));
    t.NewFish(0, 0, Left);
    t.NewFish(0, 0, Right);
    assert |t.fishies| == 2 && !t.fishies[0].departing && !t.fishies[1].departing;
  }

  /** A tank that is not collecting sees the two markers of its only peer: the
      first starts its recording and sends markers back, the second ends it. */
  method RecordBetweenMarkers(t: TankModel, peer: Addr)
    requires t.leftNeighbour == Some(peer) && t.rightNeighbour == Some(peer)
    requires t.recordingState == Idle && !t.collector
    modifies t
    ensures t.leftNeighbour == Some(peer) && t.rightNeighbour == Some(peer)
    ensures t.recordingState == Idle && !t.collector && t.delivered == old(t.delivered)
    ensures t.snapshotState == Some(CountPresent(old(t.fishies)))
    ensures t.outbox == old(t.outbox) + [ToPeer(Some(peer), SnapshotMarker), ToPeer(Some(peer), SnapshotMarker)]
  {
    var fault := t.ReceiveSnapshotMarker(peer);
    assert t.recordingState == RecordingRight;
    fault := t.ReceiveSnapshotMarker(peer);
  }

  /** The collector, recording both channels with count `n`, sees the two
      markers of its only peer and passes its count to it. */
  method CollectorCloses(t: TankModel, peer: Addr, n: int)
    requires t.leftNeighbour == Some(peer) && t.rightNeighbour == Some(peer)
    requires t.recordingState == RecordingBoth && t.collector && t.snapshotState == Some(n)
    modifies t
    ensures t.leftNeighbour == Some(peer) && t.rightNeighbour == Some(peer)
    ensures t.recordingState == Idle && t.collector && t.snapshotState == None && t.delivered == old(t.delivered)
    ensures t.outbox == old(t.outbox) + [ToPeer(Some(peer), SnapshotToken(n))]
  {
    var fault := t.ReceiveSnapshotMarker(peer);
    assert t.recordingState == RecordingRight && t.outbox == old(t.outbox);
    fault := t.ReceiveSnapshotMarker(peer);
  }

  method TwoTankSnapshot() returns (collected: seq<int>)
    ensures collected == [5]
  {
    var addrA, addrC := Addr("a", 1), Addr("c", 2);
    var a := TankOfTwo(addrC);
    var c := TankOfTwo(addrA);

    // A starts the snapshot and marks both channels towards C.
    a.InitiateSnapshot();
    assert a.outbox == [ToPeer(Some(addrC), SnapshotMarker), ToPeer(Some(addrC), SnapshotMarker)];

    // A fish in transit from C arrives on a channel A records.
    var fault := a.ReceiveFish(Fish("fish9@c", 0, 0, Left, false, false));
    assert a.snapshotState == Some(3);

    // C sees A's two markers and sends two of its own back.
    RecordBetweenMarkers(c, addrA);

    // A sees C's two markers and, as collector, sends its count to the left.
    CollectorCloses(a, addrC, 3);
    var last := a.outbox[|a.outbox| - 1];
    assert last == ToPeer(Some(addrC), SnapshotToken(3));

    // The token goes round the ring, collecting C's count, back to A.
    fault := c.ReceiveSnapshotToken(last.payload.state);
    last := c.outbox[|c.outbox| - 1];
    assert last == ToPeer(Some(addrA), SnapshotToken(5));
    fault := a.ReceiveSnapshotToken(last.payload.state);
    collected := a.delivered;
  }
}
