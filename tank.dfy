/** A tank (peer) of the ring: its fish, its two neighbour addresses, the
    token that allows fish to cross the tank's edges, the marker state of the
    ring snapshot and the location hints used to find a fish. Every message
    the tank hands to its forwarder is appended to `outbox`. */
module Tank {
  import opened Common
  import Decimal

  const Width: int := 600
  const Height: int := 350
  const MaxFishies: nat := 5

  /** Which incoming channels a snapshot still records. */
  datatype RecordingState = Idle | RecordingLeft | RecordingRight | RecordingBoth

  /** Where a fish was last seen from this tank. */
  datatype FishLocation = Here | AtLeft | AtRight

  /** A message handed to the forwarder: to the broker, or to a peer address
      that may still be unset (None). */
  datatype Outgoing = ToBroker(payload: Payload) | ToPeer(to: Option<Addr>, payload: Payload)

  /** The motion of a fish, which this model does not describe: one step of
      movement, whether a fish is at the tank's edge, and whether it has left. */
  datatype Physics = Physics(step: Fish -> Fish, hitsEdge: Fish -> bool, disappears: Fish -> bool)

  /** The number of fish that are not departing: the tank's local snapshot count. */
  function CountPresent(fs: seq<Fish>): (r: nat)
    ensures r <= |fs|
    ensures r == |fs| <==> forall k :: 0 <= k < |fs| ==> !fs[k].departing
  {
    if |fs| == 0 then 0
    else (if fs[0].departing then 0 else 1) + CountPresent(fs[1..])
  }

  /** Counting is additive over a split of the fish. */
  lemma {:induction false} CountPresentAppend(a: seq<Fish>, b: seq<Fish>)
    ensures CountPresent(a + b) == CountPresent(a) + CountPresent(b)
  {
    if |a| == 0 {
      assert a + b == b;
    } else {
      assert (a + b)[0] == a[0] && (a + b)[1..] == a[1..] + b;
      CountPresentAppend(a[1..], b);
    }
  }

  /** A tank id as string concatenation prints it: a missing id prints as "null". */
  function IdText(id: Option<string>): string {
    match id
    case None => "null"
    case Some(s) => s
  }

  /** The name of the `n`-th fish created in tank `tankId`: "fish<n>@<tankId>". */
  function FishName(n: nat, tankId: Option<string>): string {
    "fish" + Decimal.NatToString(n) + "@" + IdText(tankId)
  }

  /** Strings that agree around their middles agree in the middle too. */
  lemma CancelAround(p: string, x: string, y: string, t: string)
    requires p + x + t == p + y + t
    ensures x == y
  {
    assert |x| == |y|;
    assert x == (p + x + t)[|p|..|p| + |x|];
    assert y == (p + y + t)[|p|..|p| + |y|];
  }

  /** One tank never gives two of its fish the same name. */
  lemma FishNameInjective(a: nat, b: nat, tankId: Option<string>)
    requires FishName(a, tankId) == FishName(b, tankId)
    ensures a == b
  {
    var t := "@" + IdText(tankId);
    assert FishName(a, tankId) == "fish" + Decimal.NatToString(a) + t;
    assert FishName(b, tankId) == "fish" + Decimal.NatToString(b) + t;
    CancelAround("fish", Decimal.NatToString(a), Decimal.NatToString(b), t);
    Decimal.NatToStringInjective(a, b);
  }

  /** `v`, lowered to `hi` if it is above. */
  function Clamp(v: int, hi: int): (r: int)
    ensures r <= hi && r <= v
    ensures r == v || r == hi
  {
    if v > hi then hi else v
  }

  /** The location hint for a fish that crosses in direction `d`. */
  function Side(d: Direction): (l: FishLocation)
    ensures l != Here
    ensures l == AtLeft <==> d == Left
  {
    match d
    case Left => AtLeft
    case Right => AtRight
  }

  /** The location hint for `id`; a fish never seen here is searched on the left. */
  function Hint(locs: map<string, FishLocation>, id: string): (l: FishLocation)
    ensures id !in locs ==> l == AtLeft
    ensures id in locs ==> l == locs[id]
  {
    if id in locs then locs[id] else AtLeft
  }

  /** The index of the first fish named `id`, or -1. */
  function FirstFish(fs: seq<Fish>, id: string): (r: int)
    ensures -1 <= r < |fs|
    ensures 0 <= r ==> fs[r].id == id && forall k :: 0 <= k < r ==> fs[k].id != id
    ensures r == -1 <==> forall k :: 0 <= k < |fs| ==> fs[k].id != id
  {
    if |fs| == 0 then -1
    else if fs[0].id == id then 0
    else
      var k := FirstFish(fs[1..], id);
      if k < 0 then -1 else k + 1
  }

  // One tick of the fish, as updateFishies performs it for each fish in turn.

  /** The fish after a tick: moved, and turned round if it is at the edge
      without the token. */
  function Advance(f: Fish, token: bool, p: Physics): Fish {
    var g := p.step(f);
    if p.hitsEdge(g) && !token then Reversed(g) else g
  }

  /** The neighbour on side `d`. */
  function Toward(d: Direction, left: Option<Addr>, right: Option<Addr>): Option<Addr> {
    if d == Left then left else right
  }

  /** The handoff of a moved fish `g` to the neighbour it swims towards; none
      when that neighbour is unset. */
  function HandOff(g: Fish, left: Option<Addr>, right: Option<Addr>): seq<Outgoing> {
    var to := Toward(g.direction, left, right);
    if to.None? then [] else [ToPeer(to, HandoffRequest(g))]
  }

  /** The fish that stay in the tank after a tick of `fs`, in order. */
  function Kept(fs: seq<Fish>, token: bool, p: Physics): seq<Fish>
    decreases |fs|
  {
    if |fs| == 0 then []
    else
      var g := Advance(fs[|fs| - 1], token, p);
      Kept(fs[..|fs| - 1], token, p) + (if p.disappears(g) then [] else [g])
  }

  /** The handoffs a tick of `fs` sends, in order. */
  function Handoffs(fs: seq<Fish>, token: bool, left: Option<Addr>, right: Option<Addr>, p: Physics): seq<Outgoing>
    decreases |fs|
  {
    if |fs| == 0 then []
    else
      var g := p.step(fs[|fs| - 1]);
      Handoffs(fs[..|fs| - 1], token, left, right, p)
      + (if p.hitsEdge(g) && token then HandOff(g, left, right) else [])
  }

  /** The location hints after a tick of `fs`: a fish handed off is recorded on
      the side it left by. */
  function Hints(locs: map<string, FishLocation>, fs: seq<Fish>, token: bool, p: Physics): map<string, FishLocation>
    decreases |fs|
  {
    if |fs| == 0 then locs
    else
      var g := p.step(fs[|fs| - 1]);
      var h := Hints(locs, fs[..|fs| - 1], token, p);
      if p.hitsEdge(g) && token then h[g.id := Side(g.direction)] else h
  }

  /** Without the token a tick hands nothing off and changes no hint: fish at
      the edge turn round instead. */
  lemma {:induction false} NoTokenNoHandoff(locs: map<string, FishLocation>, fs: seq<Fish>,
                                            left: Option<Addr>, right: Option<Addr>, p: Physics)
    ensures Handoffs(fs, false, left, right, p) == []
    ensures Hints(locs, fs, false, p) == locs
    decreases |fs|
  {
    if |fs| > 0 {
      NoTokenNoHandoff(locs, fs[..|fs| - 1], left, right, p);
    }
  }

  /** Message `m` hands a fish to the set neighbour on the side it swims towards. */
  predicate TowardsFish(m: Outgoing, left: Option<Addr>, right: Option<Addr>) {
    m.ToPeer? && m.payload.HandoffRequest? && m.to.Some? &&
    m.to == Toward(m.payload.fish.direction, left, right)
  }

  /** With the token every handoff of a tick carries the moved fish to the set
      neighbour on the side the fish swims towards. */
  lemma {:induction false} HandoffsGoTowardsFish(fs: seq<Fish>, left: Option<Addr>, right: Option<Addr>, p: Physics)
    ensures forall k :: 0 <= k < |Handoffs(fs, true, left, right, p)| ==>
              TowardsFish(Handoffs(fs, true, left, right, p)[k], left, right)
    decreases |fs|
  {
    if |fs| > 0 {
      var g := p.step(fs[|fs| - 1]);
      var before := Handoffs(fs[..|fs| - 1], true, left, right, p);
      var extra := if p.hitsEdge(g) then HandOff(g, left, right) else [];
      HandoffsGoTowardsFish(fs[..|fs| - 1], left, right, p);
      assert forall k :: 0 <= k < |before| ==> TowardsFish(before[k], left, right);
      assert forall k :: 0 <= k < |extra| ==> TowardsFish(extra[k], left, right);
      var ms := before + extra;
      assert Handoffs(fs, true, left, right, p) == ms;
      forall k | 0 <= k < |ms|
        ensures TowardsFish(ms[k], left, right)
      {
        if k < |before| {
          assert ms[k] == before[k];
        } else {
          assert ms[k] == extra[k - |before|];
        }
      }
    }
  }

  /** With the token, the hint of an id that no fish reaching the edge carries
      is what it was, and an id without a hint still has none. */
  lemma {:induction false} HintsKeepOthers(locs: map<string, FishLocation>, fs: seq<Fish>, p: Physics, id: string)
    requires forall k :: 0 <= k < |fs| ==> !(p.hitsEdge(p.step(fs[k])) && p.step(fs[k]).id == id)
    ensures id in Hints(locs, fs, true, p) <==> id in locs
    ensures id in locs ==> Hints(locs, fs, true, p)[id] == locs[id]
    decreases |fs|
  {
    if |fs| > 0 {
      var pre := fs[..|fs| - 1];
      assert forall k :: 0 <= k < |pre| ==> pre[k] == fs[k];
      HintsKeepOthers(locs, pre, p, id);
    }
  }

  /** With the token, a fish that reaches the edge ends with the hint of the
      side it left by, when no later fish of that name reaches the edge. */
  lemma {:induction false} HintsRecordLastCrossing(locs: map<string, FishLocation>, fs: seq<Fish>, p: Physics, k: nat)
    requires k < |fs| && p.hitsEdge(p.step(fs[k]))
    requires forall j :: k < j < |fs| ==> !(p.hitsEdge(p.step(fs[j])) && p.step(fs[j]).id == p.step(fs[k]).id)
    ensures p.step(fs[k]).id in Hints(locs, fs, true, p)
    ensures Hints(locs, fs, true, p)[p.step(fs[k]).id] == Side(p.step(fs[k]).direction)
    decreases |fs|
  {
    if k < |fs| - 1 {
      var pre := fs[..|fs| - 1];
      assert forall j :: 0 <= j < |pre| ==> pre[j] == fs[j];
      HintsRecordLastCrossing(locs, pre, p, k);
    }
  }

  /** Message `m` is the handoff of fish `f` after its step: at the edge,
      towards a set neighbour. */
  predicate IsHandoffOf(f: Fish, left: Option<Addr>, right: Option<Addr>, p: Physics, m: Outgoing) {
    var g := p.step(f);
    p.hitsEdge(g) && Toward(g.direction, left, right).Some?
    && m == ToPeer(Toward(g.direction, left, right), HandoffRequest(g))
  }

  /** With the token, a tick sends exactly the handoffs of the fish that reach
      the edge towards a set neighbour. */
  lemma {:induction false} HandoffsExact(fs: seq<Fish>, left: Option<Addr>, right: Option<Addr>, p: Physics, m: Outgoing)
    ensures m in Handoffs(fs, true, left, right, p) <==>
              exists k :: 0 <= k < |fs| && IsHandoffOf(fs[k], left, right, p, m)
    decreases |fs|
  {
    if |fs| > 0 {
      var n := |fs| - 1;
      var pre := fs[..n];
      var g := p.step(fs[n]);
      var extra := if p.hitsEdge(g) then HandOff(g, left, right) else [];
      assert Handoffs(fs, true, left, right, p) == Handoffs(pre, true, left, right, p) + extra;
      assert m in extra <==> IsHandoffOf(fs[n], left, right, p, m);
      HandoffsExact(pre, left, right, p, m);
      if m in Handoffs(pre, true, left, right, p) {
        var k :| 0 <= k < |pre| && IsHandoffOf(pre[k], left, right, p, m);
        assert fs[k] == pre[k];
      }
      if exists k :: 0 <= k < |fs| && IsHandoffOf(fs[k], left, right, p, m) {
        var k :| 0 <= k < |fs| && IsHandoffOf(fs[k], left, right, p, m);
        if k < n {
          assert pre[k] == fs[k];
        }
      }
    }
  }

  /** Fish `g` is what fish `f` becomes in a tick: moved, and turned round if
      it is at the edge without the token. */
  predicate IsTickOf(f: Fish, token: bool, p: Physics, g: Fish) {
    g == if p.hitsEdge(p.step(f)) && !token then Reversed(p.step(f)) else p.step(f)
  }

  /** The fish kept by a tick are exactly the ticked fish that have not
      disappeared: without the token fish at the edge come back turned round,
      with the token no fish is turned. */
  lemma {:induction false} KeptExact(fs: seq<Fish>, token: bool, p: Physics, g: Fish)
    ensures g in Kept(fs, token, p) <==>
              !p.disappears(g) && exists k :: 0 <= k < |fs| && IsTickOf(fs[k], token, p, g)
    decreases |fs|
  {
    if |fs| > 0 {
      var n := |fs| - 1;
      var pre := fs[..n];
      var a := Advance(fs[n], token, p);
      var extra := if p.disappears(a) then [] else [a];
      assert Kept(fs, token, p) == Kept(pre, token, p) + extra;
      assert g in extra <==> !p.disappears(g) && IsTickOf(fs[n], token, p, g);
      KeptExact(pre, token, p, g);
      if g in Kept(pre, token, p) {
        var k :| 0 <= k < |pre| && IsTickOf(pre[k], token, p, g);
        assert fs[k] == pre[k];
      }
      if !p.disappears(g) && exists k :: 0 <= k < |fs| && IsTickOf(fs[k], token, p, g) {
        var k :| 0 <= k < |fs| && IsTickOf(fs[k], token, p, g);
        if k < n {
          assert pre[k] == fs[k];
        }
      }
    }
  }

  class TankModel {
    const xSize: int
    const ySize: int
    var id: Option<string>
    var fishies: seq<Fish>
    var fishCounter: nat
    var leftNeighbour: Option<Addr>
    var rightNeighbour: Option<Addr>
    var token: bool
    var snapshotState: Option<int>
    var recordingState: RecordingState
    /** Whether a snapshot collection callback is installed. */
    var collector: bool
    /** The values handed to the collection callback, in order. */
    var delivered: seq<int>
    var fishLocations: map<string, FishLocation>
    var outbox: seq<Outgoing>

    /** A tank for fish sprites of `xSize` by `ySize` pixels. */
    constructor (xSize: int, ySize: int)
      ensures this.xSize == xSize && this.ySize == ySize
      ensures id == None && fishies == [] && fishCounter == 0
      ensures leftNeighbour == None && rightNeighbour == None && !token
      ensures snapshotState == None && recordingState == Idle && !collector && delivered == []
      ensures fishLocations == map[] && outbox == []
    {
      this.xSize, this.ySize := xSize, ySize;
      id, fishies, fishCounter := None, [], 0;
      leftNeighbour, rightNeighbour, token := None, None, false;
      snapshotState, recordingState, collector, delivered := None, Idle, false, [];
      fishLocations, outbox := map[], [];
    }

    method SetLeftNeighbour(a: Option<Addr>)
      modifies this`leftNeighbour
      ensures leftNeighbour == a
    {
      leftNeighbour := a;
    }

    method SetRightNeighbour(a: Option<Addr>)
      modifies this`rightNeighbour
      ensures rightNeighbour == a
    {
      rightNeighbour := a;
    }

    /** The tank's local snapshot count: the fish not departing. */
    function CalculateLocalState(): (r: nat)
      reads this
      ensures r <= |fishies|
      ensures r == |fishies| <==> forall k :: 0 <= k < |fishies| ==> !fishies[k].departing
    {
      CountPresent(fishies)
    }

    /** Starts a snapshot with this tank as collector: both channels are
        recorded, the local count is saved, and markers go left then right. */
    method InitiateSnapshot()
      modifies this`recordingState, this`snapshotState, this`collector, this`outbox
      ensures recordingState == RecordingBoth
      ensures snapshotState == Some(CountPresent(fishies))
      ensures collector
      ensures outbox == old(outbox) + [ToPeer(leftNeighbour, SnapshotMarker), ToPeer(rightNeighbour, SnapshotMarker)]
    {
      recordingState := RecordingBoth;
      snapshotState := Some(CalculateLocalState());
      collector := true;
      outbox := outbox + [ToPeer(leftNeighbour, SnapshotMarker)];
      outbox := outbox + [ToPeer(rightNeighbour, SnapshotMarker)];
    }

    /** A SnapshotToken carrying `state`. A tank that holds no count delivers
        the value to its callback and drops the callback; one that holds a
        count adds it and passes the sum to the left. `fault` is the null
        dereference of a tank that holds neither. */
    method ReceiveSnapshotToken(state: int) returns (fault: bool)
      modifies this`snapshotState, this`collector, this`delivered, this`outbox
      ensures fault <==> old(snapshotState).None? && !old(collector)
      ensures old(snapshotState).None? && old(collector) ==>
                delivered == old(delivered) + [state] && !collector && outbox == old(outbox)
      ensures old(snapshotState).Some? ==>
                outbox == old(outbox) + [ToPeer(leftNeighbour, SnapshotToken(state + old(snapshotState).value))]
                && delivered == old(delivered) && collector == old(collector)
      ensures old(snapshotState).None? && !old(collector) ==>
                outbox == old(outbox) && delivered == old(delivered) && !collector
      ensures snapshotState == None
    {
      fault := false;
      if snapshotState.None? {
        if !collector {
          fault := true;
          return;
        }
        delivered := delivered + [state];
        collector := false;
        return;
      }
      outbox := outbox + [ToPeer(leftNeighbour, SnapshotToken(state + snapshotState.value))];
      snapshotState := None;
    }

    /** A SnapshotMarker from `sender`. `fault` is the null dereference of a
        collector that closes its recording without a count. */
    method ReceiveSnapshotMarker(sender: Addr) returns (fault: bool)
      modifies this`recordingState, this`snapshotState, this`outbox
      // Idle: record the count, await the other side, pass markers left then right.
      ensures old(recordingState) == Idle ==>
                var next := if old(leftNeighbour) == Some(sender) then RecordingRight
                            else if old(rightNeighbour) == Some(sender) then RecordingLeft
                            else Idle;
                recordingState == next
      // One side pending: only a marker from that side closes the recording.
      ensures old(recordingState) == RecordingLeft ==>
                recordingState == (if leftNeighbour == Some(sender) then Idle else RecordingLeft)
      ensures old(recordingState) == RecordingRight ==>
                recordingState == (if rightNeighbour == Some(sender) then Idle else RecordingRight)
      // Both pending: the marker's side is done, the other still records.
      ensures old(recordingState) == RecordingBoth ==>
                recordingState == (if leftNeighbour == Some(sender) then RecordingRight
                                   else if rightNeighbour == Some(sender) then RecordingLeft
                                   else RecordingBoth)
      // Closing: a collector passes its count to the left and forgets it.
      ensures var base := if old(recordingState) == Idle then old(outbox) + [ToPeer(leftNeighbour, SnapshotMarker), ToPeer(rightNeighbour, SnapshotMarker)]
                          else old(outbox);
              var count := if old(recordingState) == Idle then Some(CountPresent(fishies)) else old(snapshotState);
              if recordingState == Idle && collector then
                && fault == count.None?
                && (count.Some? ==> outbox == base + [ToPeer(leftNeighbour, SnapshotToken(count.value))] && snapshotState == None)
                && (count.None? ==> outbox == base && snapshotState == None)
              else
                !fault && outbox == base && snapshotState == count
    {
      fault := false;
      match recordingState {
        case Idle =>
          snapshotState := Some(CalculateLocalState());
          if leftNeighbour == Some(sender) {
            recordingState := RecordingRight;
          } else if rightNeighbour == Some(sender) {
            recordingState := RecordingLeft;
          }
          outbox := outbox + [ToPeer(leftNeighbour, SnapshotMarker)];
          outbox := outbox + [ToPeer(rightNeighbour, SnapshotMarker)];
        case RecordingLeft =>
          if leftNeighbour == Some(sender) {
            recordingState := Idle;
          }
        case RecordingRight =>
          if rightNeighbour == Some(sender) {
            recordingState := Idle;
          }
        case RecordingBoth =>
          if leftNeighbour == Some(sender) {
            recordingState := RecordingRight;
          } else if rightNeighbour == Some(sender) {
            recordingState := RecordingLeft;
          }
      }
      if recordingState == Idle && collector {
        if snapshotState.None? {
          fault := true;
          return;
        }
        outbox := outbox + [ToPeer(leftNeighbour, SnapshotToken(snapshotState.value))];
        snapshotState := None;
      }
    }

    /** The token arrives; the timer that later releases it is the separate
        event TokenTimeout. */
    method ReceiveToken()
      modifies this`token
      ensures token
    {
      token := true;
    }

    /** The token timer fires: a tank still holding the token passes it left
        (nothing is sent while the left neighbour is unset). */
    method TokenTimeout()
      modifies this`token, this`outbox
      ensures !token
      ensures outbox == old(outbox) + (if old(token) && leftNeighbour.Some? then [ToPeer(leftNeighbour, Token)] else [])
    {
      if token {
        token := false;
        if leftNeighbour.Some? {
          outbox := outbox + [ToPeer(leftNeighbour, Token)];
        }
      }
    }

    method HasToken() returns (b: bool)
      ensures b == token
    {
      b := token;
    }

    /** The tank's id arrives from the broker; the first fish is spawned at the
        right edge at height `y`, swimming in `dir`. */
    method OnRegistration(newId: string, y: int, dir: Direction)
      modifies this`id, this`fishies, this`fishCounter, this`fishLocations
      ensures id == Some(newId)
      ensures old(|fishies|) < MaxFishies ==>
                && fishCounter == old(fishCounter) + 1
                && fishies == old(fishies) + [Fish(FishName(fishCounter, id), Width - xSize - 1,
                                                   Clamp(y, Height - ySize), dir, false, false)]
                && fishLocations == old(fishLocations)[FishName(fishCounter, id) := Here]
      ensures MaxFishies <= old(|fishies|) ==>
                fishies == old(fishies) && fishCounter == old(fishCounter) && fishLocations == old(fishLocations)
    {
      id := Some(newId);
      NewFish(Width - xSize, y, dir);
    }

    /** A new fish at (`x`, `y`) swimming in `dir`, unless the tank is full; the
        position is pulled back inside the tank. */
    method NewFish(x: int, y: int, dir: Direction)
      modifies this`fishies, this`fishCounter, this`fishLocations
      ensures old(|fishies|) < MaxFishies ==>
                && fishCounter == old(fishCounter) + 1
                && fishies == old(fishies) + [Fish(FishName(fishCounter, id), Clamp(x, Width - xSize - 1),
                                                   Clamp(y, Height - ySize), dir, false, false)]
                && fishLocations == old(fishLocations)[FishName(fishCounter, id) := Here]
      ensures MaxFishies <= old(|fishies|) ==>
                fishies == old(fishies) && fishCounter == old(fishCounter) && fishLocations == old(fishLocations)
      ensures forall k :: old(|fishies|) <= k < |fishies| ==>
                fishies[k].x <= Width - xSize - 1 && fishies[k].y <= Height - ySize
    {
      if |fishies| < MaxFishies {
        var x' := if x > Width - xSize - 1 then Width - xSize - 1 else x;
        var y' := if y > Height - ySize then Height - ySize else y;
        fishCounter := fishCounter + 1;
        var fish := Fish(FishName(fishCounter, id), x', y', dir, false, false);
        fishies := fishies + [fish];
        fishLocations := fishLocations[fish.id := Here];
      }
    }

    /** A fish handed over by a neighbour. While a recording is open, a fish
        arriving on a recorded channel adds one to the count: any fish in
        RecordingBoth, one swimming right (so from the left) in RecordingLeft,
        one swimming left in RecordingRight. `fault` is the null dereference of
        a recording tank that holds no count; the fish is in the tank by then. */
    method ReceiveFish(fish: Fish) returns (fault: bool)
      modifies this`fishies, this`fishLocations, this`snapshotState
      ensures fishies == old(fishies) + [fish]
      ensures fishLocations == old(fishLocations)[fish.id := Here]
      ensures var counted := recordingState == RecordingBoth
                             || (recordingState == RecordingLeft && fish.direction == Right)
                             || (recordingState == RecordingRight && fish.direction == Left);
              && fault == (counted && old(snapshotState).None?)
              && snapshotState == (if counted && old(snapshotState).Some? then Some(old(snapshotState).value + 1)
                                   else old(snapshotState))
    {
      fault := false;
      fishies := fishies + [fish];
      fishLocations := fishLocations[fish.id := Here];
      var counted := false;
      match recordingState {
        case Idle =>
        case RecordingLeft =>
          counted := fish.direction == Right;
        case RecordingRight =>
          counted := fish.direction == Left;
        case RecordingBoth =>
          counted := true;
      }
      if counted {
        if snapshotState.None? {
          fault := true;
          return;
        }
        snapshotState := Some(snapshotState.value + 1);
      }
    }

    /** One tick of every fish, in turn: it moves; at the edge it is handed to
        the neighbour it swims towards if the tank holds the token, and turns
        round otherwise; a fish that has disappeared leaves the tank. */
    method UpdateFishies(p: Physics)
      modifies this`fishies, this`fishLocations, this`outbox
      ensures fishies == Kept(old(fishies), token, p)
      ensures outbox == old(outbox) + Handoffs(old(fishies), token, leftNeighbour, rightNeighbour, p)
      ensures fishLocations == Hints(old(fishLocations), old(fishies), token, p)
    {
      var all := fishies;
      var kept := [];
      var i := 0;
      while i < |all|
        invariant i <= |all|
        invariant kept == Kept(all[..i], token, p)
        invariant outbox == old(outbox) + Handoffs(all[..i], token, leftNeighbour, rightNeighbour, p)
        invariant fishLocations == Hints(old(fishLocations), all[..i], token, p)
      {
        assert all[..i + 1][..i] == all[..i];
        var fish := p.step(all[i]);
        if p.hitsEdge(fish) {
          var hasToken := HasToken();
          if hasToken {
            var to := if fish.direction == Left then leftNeighbour else rightNeighbour;
            if to.Some? {
              outbox := outbox + [ToPeer(to, HandoffRequest(fish))];
            }
            fishLocations := fishLocations[fish.id := if fish.direction == Left then AtLeft else AtRight];
          } else {
            fish := Reversed(fish);
          }
        }
        if !p.disappears(fish) {
          kept := kept + [fish];
        }
        i := i + 1;
      }
      assert all[..i] == all;
      fishies := kept;
    }

    /** Leaving the ring: deregister with the broker, then pass a held token
        to the left. */
    method Finish()
      modifies this`outbox
      ensures outbox == old(outbox) + [ToBroker(DeregisterRequest(id))]
                        + (if token && leftNeighbour.Some? then [ToPeer(leftNeighbour, Token)] else [])
    {
      outbox := outbox + [ToBroker(DeregisterRequest(id))];
      var hasToken := HasToken();
      if hasToken && leftNeighbour.Some? {
        outbox := outbox + [ToPeer(leftNeighbour, Token)];
      }
    }

    /** Looks for fish `fishId` across the ring. If the hint says it is here,
        the first fish of that name is toggled (nothing happens if none is
        found); otherwise the request goes to the neighbour the hint names,
        the left one for a fish never seen. */
    method LocateFishGlobally(fishId: string)
      modifies this`fishies, this`outbox
      ensures Hint(fishLocations, fishId) == Here ==>
                && outbox == old(outbox)
                && var k := FirstFish(old(fishies), fishId);
                   fishies == if k < 0 then old(fishies) else old(fishies)[k := old(fishies)[k].(toggled := !old(fishies)[k].toggled)]
      ensures Hint(fishLocations, fishId) != Here ==>
                && fishies == old(fishies)
                && outbox == old(outbox) + [ToPeer(if Hint(fishLocations, fishId) == AtLeft then leftNeighbour else rightNeighbour,
                                                   LocationRequest(fishId))]
    {
      var loc := Hint(fishLocations, fishId);
      if loc == Here {
        var i := 0;
        while i < |fishies|
          invariant i <= |fishies| && fishies == old(fishies)
          invariant forall k :: 0 <= k < i ==> fishies[k].id != fishId
        {
          if fishies[i].id == fishId {
            fishies := fishies[i := fishies[i].(toggled := !fishies[i].toggled)];
            return;
          }
          i := i + 1;
        }
      } else {
        outbox := outbox + [ToPeer(if loc == AtLeft then leftNeighbour else rightNeighbour, LocationRequest(fishId))];
      }
    }
  }
}
