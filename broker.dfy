/** The broker: it keeps the ring directory, answers registrations and
    deregistrations with neighbour updates, relays handoffs, resolves tank ids
    to addresses and sweeps expired leases. Each handler appends what it sends
    to `outbox` instead of writing to the network. */
module Broker {
  import opened Common
  import opened ClientCollection
  import Decimal

  /** Lease duration granted on every registration, in milliseconds. */
  const LeaseTime: int := 3000

  /** The id minted from counter value `n`: "client" followed by `n` in decimal. */
  function ClientName(n: nat): string {
    "client" + Decimal.NatToString(n)
  }

  lemma ClientNameInjective(a: nat, b: nat)
    requires ClientName(a) == ClientName(b)
    ensures a == b
  {
    Decimal.PrefixedInjective("client", a, b);
  }

  /** No id in the directory is one the counter has yet to mint. */
  ghost predicate MintedUpTo(s: seq<Entry>, counter: nat) {
    forall j, k: nat :: 0 <= j < |s| && counter < k ==> s[j].id != ClientName(k)
  }

  /** The directory invariant: unique ids, unique addresses, and no id the
      counter has yet to mint. */
  ghost predicate WellFormed(s: seq<Entry>, counter: nat) {
    DistinctIds(s) && DistinctAddrs(s) && MintedUpTo(s, counter)
  }

  /** A first registration appends an entry under the next minted id, which is
      then found at the tail. */
  lemma FreshKeepsWellFormed(s: seq<Entry>, counter: nat, c: Client)
    requires WellFormed(s, counter) && IndexOfClient(s, c) == -1
    ensures WellFormed(Add(s, ClientName(counter + 1), c), counter + 1)
    ensures IndexOfId(Add(s, ClientName(counter + 1), c), ClientName(counter + 1)) == |s|
  {
    var id := ClientName(counter + 1);
    assert IndexOfId(s, id) == -1;
    AddFreshKeepsDistinct(s, id, c);
    var t := Add(s, id, c);
    forall j, k: nat | 0 <= j < |t| && counter + 1 < k ensures t[j].id != ClientName(k) {
      if j == |s| && id == ClientName(k) {
        ClientNameInjective(counter + 1, k);
      }
    }
    IndexOfUniqueId(t, |s|);
  }

  /** A renewal removes entry `i` and appends it again under the same id; that
      id is then found at the tail. */
  lemma RenewKeepsWellFormed(s: seq<Entry>, counter: nat, i: nat, c: Client)
    requires WellFormed(s, counter) && i < |s| && SameClient(s[i].client, c)
    ensures WellFormed(Add(Remove(s, i), s[i].id, c), counter)
    ensures IndexOfId(Add(Remove(s, i), s[i].id, c), s[i].id) == |s| - 1
  {
    var r := Remove(s, i);
    RemoveKeepsDistinct(s, i);
    RemoveShifts(s, i);
    assert IndexOfClient(r, c) == -1 by {
      assert forall j :: 0 <= j < |r| ==> !SameClient(r[j].client, s[i].client);
    }
    AddFreshKeepsDistinct(r, s[i].id, c);
    var t := Add(r, s[i].id, c);
    forall j, k: nat | 0 <= j < |t| && counter < k ensures t[j].id != ClientName(k) {
      var j' := if j == |r| then i else if j < i then j else j + 1;
      assert t[j].id == s[j'].id;
    }
    IndexOfUniqueId(t, |r|);
  }

  /** Removing an entry keeps the invariant. */
  lemma RemoveKeepsWellFormed(s: seq<Entry>, counter: nat, i: nat)
    requires WellFormed(s, counter) && i < |s|
    ensures WellFormed(Remove(s, i), counter)
  {
    RemoveKeepsDistinct(s, i);
    RemoveShifts(s, i);
    var r := Remove(s, i);
    forall j, k: nat | 0 <= j < |r| && counter < k ensures r[j].id != ClientName(k) {
      var j' := if j < i then j else j + 1;
      assert r[j] == s[j'];
    }
  }

  /** One message put on the wire by the broker. */
  datatype Send = Send(to: Addr, payload: Payload)

  /** What registration sends once the client's entry is the last one of `s`:
      the client's own left and right neighbours, then the news to those two
      neighbours, then the acknowledgement, then the token if the client is alone. */
  function RegisterMessages(s: seq<Entry>, id: string): (m: seq<Send>)
    requires |s| > 0
    ensures |m| == if |s| == 1 then 6 else 5
    ensures m[4] == Send(s[|s| - 1].client.addr, RegisterResponse(id, LeaseTime))
  {
    var n := |s|;
    var me := s[n - 1].client.addr;
    var l := LeftNeighbourOf(s, n - 1).addr;
    var r := RightNeighbourOf(s, n - 1).addr;
    [ Send(me, NeighbourUpdate(Left, l)),
      Send(me, NeighbourUpdate(Right, r)),
      Send(l, NeighbourUpdate(Right, me)),
      Send(r, NeighbourUpdate(Left, me)),
      Send(me, RegisterResponse(id, LeaseTime)) ]
    + (if n == 1 then [Send(me, Token)] else [])
  }

  /** What deregistering entry `i` of `s` sends: its left neighbour learns its
      new right neighbour, then its right neighbour learns its new left one. */
  function DeregisterMessages(s: seq<Entry>, i: nat): (m: seq<Send>)
    requires i < |s|
    ensures |m| == 2
    ensures m[0].to == LeftNeighbourOf(s, i).addr && m[1].to == RightNeighbourOf(s, i).addr
  {
    var l := LeftNeighbourOf(s, i).addr;
    var r := RightNeighbourOf(s, i).addr;
    [Send(l, NeighbourUpdate(Right, r)), Send(r, NeighbourUpdate(Left, l))]
  }

  /** The lease sweep as the code runs it, from index `i` on: an expired entry
      is deregistered and the index still moves on, so the entry that slides
      into the freed slot is not looked at. This is the directory it leaves. */
  function SweptFrom(s: seq<Entry>, i: nat, now: int): (r: seq<Entry>)
    decreases |s| - i
  {
    if |s| <= i then s
    else if s[i].client.endOfLease < now then SweptFrom(Remove(s, i), i + 1, now)
    else SweptFrom(s, i + 1, now)
  }

  /** The messages the same sweep sends, in order. */
  function SweepMessages(s: seq<Entry>, i: nat, now: int): (r: seq<Send>)
    decreases |s| - i
  {
    if |s| <= i then []
    else if s[i].client.endOfLease < now then DeregisterMessages(s, i) + SweepMessages(Remove(s, i), i + 1, now)
    else SweepMessages(s, i + 1, now)
  }

  /** Unfolding one expired step of the sweep. */
  lemma SweepExpiredStep(sent: seq<Send>, s: seq<Entry>, i: nat, now: int)
    requires i < |s| && s[i].client.endOfLease < now
    ensures SweptFrom(s, i, now) == SweptFrom(Remove(s, i), i + 1, now)
    ensures sent + SweepMessages(s, i, now)
         == (sent + DeregisterMessages(s, i)) + SweepMessages(Remove(s, i), i + 1, now)
  {
  }

  /** Unfolding one live step of the sweep. */
  lemma SweepLiveStep(s: seq<Entry>, i: nat, now: int)
    requires i < |s| && now <= s[i].client.endOfLease
    ensures SweptFrom(s, i, now) == SweptFrom(s, i + 1, now)
    ensures SweepMessages(s, i, now) == SweepMessages(s, i + 1, now)
  {
  }

  class Broker {
    var clients: seq<Entry>
    var counter: nat
    var outbox: seq<Send>

    /** Ids and addresses are unique and every id was minted by `counter`. */
    ghost predicate Valid()
      reads this
    {
      WellFormed(clients, counter)
    }

    constructor ()
      ensures Valid() && clients == [] && counter == 0 && outbox == []
    {
      clients := [];
      counter := 0;
      outbox := [];
    }

    /** A RegisterRequest from `sender` at time `now`. */
    method Register(sender: Addr, now: int)
      requires Valid()
      modifies this
      ensures Valid()
      ensures IndexOfClient(old(clients), Client(sender, 0)) < 0 ==>
                && counter == old(counter) + 1
                && clients == old(clients) + [Entry(ClientName(counter), Client(sender, now + LeaseTime))]
                && outbox == old(outbox) + RegisterMessages(clients, ClientName(counter))
      ensures var i := IndexOfClient(old(clients), Client(sender, 0));
              0 <= i ==>
                && counter == old(counter)
                && clients == Remove(old(clients), i) + [Entry(old(clients)[i].id, Client(sender, now + LeaseTime))]
                && outbox == old(outbox) + RegisterMessages(clients, old(clients)[i].id)
      ensures |clients| == |old(clients)| + (if IndexOfClient(old(clients), Client(sender, 0)) < 0 then 1 else 0)
    {
      var client := Client(sender, now + LeaseTime);
      var index := IndexOfClient(clients, client);
      IndexOfClientIgnoresLease(clients, sender, now + LeaseTime, 0);
      var clientId: string;
      if index >= 0 {
        clientId := clients[index].id;
        RenewKeepsWellFormed(clients, counter, index, client);
        clients := Remove(clients, index);
      } else {
        FreshKeepsWellFormed(clients, counter, client);
        counter := counter + 1;
        clientId := ClientName(counter);
      }
      clients := Add(clients, clientId, client);

      var clientIndex := IndexOfId(clients, clientId);
      var leftNeighbour := LeftNeighbourOf(clients, clientIndex);
      var rightNeighbour := RightNeighbourOf(clients, clientIndex);

      assert clientIndex == |clients| - 1;
      var sent := [
        Send(client.addr, NeighbourUpdate(Left, leftNeighbour.addr)),
        Send(client.addr, NeighbourUpdate(Right, rightNeighbour.addr)),
        Send(leftNeighbour.addr, NeighbourUpdate(Right, client.addr)),
        Send(rightNeighbour.addr, NeighbourUpdate(Left, client.addr)),
        Send(client.addr, RegisterResponse(clientId, LeaseTime))];
      if |clients| == 1 {
        sent := sent + [Send(client.addr, Token)];
      }
      assert sent == RegisterMessages(clients, clientId);
      outbox := outbox + sent;
    }

    /** A DeregisterRequest for `id`; an id the directory does not hold (or a
        missing one) changes nothing and sends nothing. */
    method Deregister(id: Option<string>)
      requires Valid()
      modifies this`clients, this`outbox
      ensures Valid()
      ensures var i := if id.None? then -1 else IndexOfId(old(clients), id.value);
              if i < 0 then clients == old(clients) && outbox == old(outbox)
              else clients == Remove(old(clients), i)
                   && outbox == old(outbox) + DeregisterMessages(old(clients), i)
    {
      if id.None? {
        return;
      }
      var index := IndexOfId(clients, id.value);
      if index < 0 {
        return;
      }
      var leftNeighbour := LeftNeighbourOf(clients, index);
      var rightNeighbour := RightNeighbourOf(clients, index);
      outbox := outbox + [Send(leftNeighbour.addr, NeighbourUpdate(Right, rightNeighbour.addr))];
      outbox := outbox + [Send(rightNeighbour.addr, NeighbourUpdate(Left, leftNeighbour.addr))];
      RemoveKeepsWellFormed(clients, counter, index);
      clients := Remove(clients, index);
    }

    /** A HandoffRequest carrying `fish` from `sender`: relayed unchanged to the
        sender's neighbour on the side the fish travels to; dropped when the
        sender is not registered. */
    method Handoff(fish: Fish, sender: Addr)
      modifies this`outbox
      ensures var i := IndexOfClient(clients, Client(sender, 0));
              if i < 0 then outbox == old(outbox)
              else outbox == old(outbox) + [Send(
                     if fish.direction == Left then LeftNeighbourOf(clients, i).addr
                     else RightNeighbourOf(clients, i).addr,
                     HandoffRequest(fish))]
    {
      var index := IndexOfClient(clients, Client(sender, 0));
      if index < 0 {
        return;
      }
      var target: Addr;
      match fish.direction {
        case Left => target := LeftNeighbourOf(clients, index).addr;
        case Right => target := RightNeighbourOf(clients, index).addr;
      }
      outbox := outbox + [Send(target, HandoffRequest(fish))];
    }

    /** A NameResolutionRequest from `sender`: the address of `tankId` goes back
        to the sender with the request id; an unknown id gets no reply. */
    method NameResolution(sender: Addr, tankId: string, requestId: string)
      modifies this`outbox
      ensures match GetClientById(clients, tankId)
              case None => outbox == old(outbox)
              case Some(c) => outbox == old(outbox) + [Send(sender, NameResolutionResponse(c.addr, requestId))]
    {
      var c := GetClientById(clients, tankId);
      if c.None? {
        return;
      }
      outbox := outbox + [Send(sender, NameResolutionResponse(c.value.addr, requestId))];
    }

    /** One pass of the periodic lease check at time `now`, as written: the loop
        index moves on after a removal too. */
    method CheckLeases(now: int)
      requires Valid()
      modifies this`clients, this`outbox
      ensures Valid()
      ensures clients == SweptFrom(old(clients), 0, now)
      ensures outbox == old(outbox) + SweepMessages(old(clients), 0, now)
    {
      ghost var swept, sent := SweptFrom(clients, 0, now), outbox + SweepMessages(clients, 0, now);
      var i := 0;
      while i < |clients|
        invariant Valid()
        invariant swept == SweptFrom(clients, i, now)
        invariant sent == outbox + SweepMessages(clients, i, now)
        decreases |clients| - i
      {
        var client := clients[i].client;
        var id := clients[i].id;
        if client.endOfLease < now {
          ghost var before, sentBefore := clients, outbox;
          IndexOfUniqueId(clients, i);
          Deregister(Some(id));
          SweepExpiredStep(sentBefore, before, i, now);
        } else {
          SweepLiveStep(clients, i, now);
        }
        i := i + 1;
      }
    }

    /** One inbound message, dispatched on its payload; payloads without a
        handler are dropped. */
    method Handle(sender: Addr, p: Payload, now: int)
      requires Valid()
      modifies this
      ensures Valid()
      ensures !p.RegisterRequest? ==> counter == old(counter)
      // A RegisterRequest is a registration of the sender.
      ensures p.RegisterRequest? && IndexOfClient(old(clients), Client(sender, 0)) < 0 ==>
                && counter == old(counter) + 1
                && clients == old(clients) + [Entry(ClientName(counter), Client(sender, now + LeaseTime))]
                && outbox == old(outbox) + RegisterMessages(clients, ClientName(counter))
      ensures var i := IndexOfClient(old(clients), Client(sender, 0));
              p.RegisterRequest? && 0 <= i ==>
                && counter == old(counter)
                && clients == Remove(old(clients), i) + [Entry(old(clients)[i].id, Client(sender, now + LeaseTime))]
                && outbox == old(outbox) + RegisterMessages(clients, old(clients)[i].id)
      // A DeregisterRequest removes the entry of its id, if there is one.
      ensures p.DeregisterRequest? ==>
                var i := if p.clientId.None? then -1 else IndexOfId(old(clients), p.clientId.value);
                if i < 0 then clients == old(clients) && outbox == old(outbox)
                else clients == Remove(old(clients), i)
                     && outbox == old(outbox) + DeregisterMessages(old(clients), i)
      // A HandoffRequest is relayed to the sender's neighbour on the fish's side.
      ensures p.HandoffRequest? ==>
                && clients == old(clients)
                && var i := IndexOfClient(clients, Client(sender, 0));
                   if i < 0 then outbox == old(outbox)
                   else outbox == old(outbox) + [Send(
                          if p.fish.direction == Left then LeftNeighbourOf(clients, i).addr
                          else RightNeighbourOf(clients, i).addr,
                          p)]
      // A NameResolutionRequest is answered when the tank id is known.
      ensures p.NameResolutionRequest? ==>
                && clients == old(clients)
                && match GetClientById(clients, p.tankId)
                   case None => outbox == old(outbox)
                   case Some(c) => outbox == old(outbox) + [Send(sender, NameResolutionResponse(c.addr, p.requestId))]
      ensures !(p.RegisterRequest? || p.DeregisterRequest? || p.HandoffRequest? || p.NameResolutionRequest?) ==>
                clients == old(clients) && outbox == old(outbox)
    {
      match p {
        case RegisterRequest => Register(sender, now);
        case DeregisterRequest(id) => Deregister(id);
        case HandoffRequest(fish) => Handoff(fish, sender);
        case NameResolutionRequest(tankId, requestId) => NameResolution(sender, tankId, requestId);
        case _ =>
      }
    }
  }
}
