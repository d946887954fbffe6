# Aqua ring: broker membership and tank protocol state

Aqua is a distributed aquarium. Tanks (peers) form a ring; a broker keeps
the ring directory. Fish swim from one tank into the next. A token decides
which tank may pass fish across its edges. A marker-based snapshot counts
every fish in the ring.

This project models the two components that hold that logic, as sequential
state machines.

- **The broker** (`Broker.Broker`, in `broker.dfy`) holds an insertion-ordered
  directory of `(id, Client(addr, endOfLease))` entries, an id counter, and an
  `outbox` of the messages it sends. Its handlers are:
  - registration, which is either a first registration or a lease renewal;
  - deregistration;
  - handoff relay to the sender's left or right neighbour;
  - name resolution;
  - one pass of the periodic lease check.

  The directory operations are pure functions on sequences, in
  `client_collection.dfy` (`ClientCollection`).
- **The tank** (`Tank.TankModel`, in `tank.dfy`) holds the tank's fish, its
  two neighbour addresses, the token flag, the snapshot marker state
  (`Idle`, `RecordingLeft`, `RecordingRight`, `RecordingBoth`), the recorded
  count, the collector flag, the location hints for fish, and an `outbox` of
  what it hands to its forwarder.

Methods change the fields they name in `modifies`. The contract of each one
states the new value of every field it may change.
- `Broker.Broker` keeps the invariant `Valid()`: ids are distinct, addresses
  are distinct, and no id is one the counter has yet to mint.
- `RingView` (`ring_view.dfy`) interprets the broker's NeighbourUpdate
  messages as the neighbour fields of every tank. It proves that a first
  registration and a deregistration leave every tank knowing its directory
  neighbours.
- `LeaseSweep` (`lease_sweep.dfy`) states what one lease pass keeps and what
  it can miss.
- `Scenario` (`scenario.dfy`) runs a snapshot across two tanks with a fish in
  transit. Every marker delivered matches one the sender logged, and every
  token is read from the sender's log. The collector receives 5: two fish in
  each tank plus the one in transit.

Outside effects become parameters and logs:
- The clock is the parameter `now`.
- The spawn height and direction are parameters.
- Fish motion is the `Physics` parameter of `UpdateFishies`.
- The network is the `outbox` of each object.
- A Java null dereference is a `fault` result.
- A Java `null` is `None`.

The model follows the code where the code and the protocol description
disagree:
- Deregistration sends both neighbour updates even when the ring has one
  member. The updates go to the leaving tank itself.
- `finish` deregisters first and only then passes the token, and it leaves
  the token flag set.
- The token timer and an edge handoff send nothing while the neighbour is
  unset.
- Fish are handed directly to the neighbour tank.
- A collector that closes its recording sends its own count to the left. Its
  callback runs when the token comes back to it with no count held.

## Model

| member | source | states |
|---|---|---|
| Common.Reversed | aqua/blatt1/client/TankModel.java:212-214 | a turned fish swims the other way and is otherwise the same fish |
| Decimal.NatToString | aqua/blatt1/broker/Broker.java:139 | the decimal rendering of the counter is non-empty, all digits, without a leading zero, one digit exactly below 10 |
| Decimal.NatToStringInjective | aqua/blatt1/broker/Broker.java:139 | different counter values render differently |
| Broker.ClientNameInjective | aqua/blatt1/broker/Broker.java:139 | two counter values never mint the same "client<n>" id |
| ClientCollection.IndexOfClient | aqua/blatt1/broker/Broker.java:30-39 | the first entry whose address equals the client's, whatever the lease, or -1 exactly when no entry has that address |
| ClientCollection.IndexOfClientIgnoresLease | aqua/blatt1/broker/Broker.java:130-132 | looking a client up gives the same index for any lease value, so a second registration from one address finds the first |
| ClientCollection.IndexOfId | aqua/blatt1/broker/Broker.java:114 | the first entry with that id, or -1 exactly when the id is absent |
| ClientCollection.GetClientById | aqua/blatt1/broker/Broker.java:214 | None exactly when the id is absent, otherwise a client the directory holds under that id |
| ClientCollection.Add | aqua/blatt1/broker/Broker.java:141 | the directory grows by one entry at the tail and is otherwise unchanged |
| ClientCollection.Remove | aqua/blatt1/broker/Broker.java:125 | the directory shrinks by exactly one entry |
| ClientCollection.RemoveShifts | aqua/blatt1/broker/Broker.java:125 | entries before the removed one stay in place, later ones move down one slot, and only the removed entry is lost |
| ClientCollection.LeftIndex | aqua/blatt1/broker/Broker.java:119 | the left neighbour of slot i is i-1, wrapping from the first slot to the last |
| ClientCollection.RightIndex | aqua/blatt1/broker/Broker.java:120 | the right neighbour of slot i is i+1, wrapping from the last slot to the first |
| ClientCollection.NeighboursInverse | aqua/blatt1/broker/Broker.java:144-145 | the right neighbour of one's left neighbour is oneself, and the other way round |
| ClientCollection.IndexOfUniqueId | aqua/blatt1/broker/Broker.java:143 | with distinct ids, looking up the id of entry i finds i |
| ClientCollection.RemoveKeepsDistinct | aqua/blatt1/broker/Broker.java:125 | removal keeps ids and addresses distinct and leaves neither the removed id nor its address behind |
| ClientCollection.AddFreshKeepsDistinct | aqua/blatt1/broker/Broker.java:141 | appending an absent id at an absent address keeps ids and addresses distinct |
| Broker.FreshKeepsWellFormed | aqua/blatt1/broker/Broker.java:138-143 | a first registration under "client<counter+1>" keeps the directory invariant with the bumped counter and is found at the tail |
| Broker.RenewKeepsWellFormed | aqua/blatt1/broker/Broker.java:134-143 | a renewal that moves the entry to the tail under its old id keeps the invariant and is found at the tail |
| Broker.RemoveKeepsWellFormed | aqua/blatt1/broker/Broker.java:112-126 | removing an entry keeps the directory invariant |
| Broker.RegisterMessages | aqua/blatt1/broker/Broker.java:147-159 | registration sends five messages, six when the client is alone, and the fifth is the acknowledgement with the lease time |
| Broker.DeregisterMessages | aqua/blatt1/broker/Broker.java:119-123 | deregistration sends two messages, to the left neighbour and then to the right neighbour |
| Broker.Broker.constructor | aqua/blatt1/broker/Broker.java:64-65 | an empty directory, counter 0, nothing sent |
| Broker.Broker.Register | aqua/blatt1/broker/Broker.java:128-160 | a new address gets the next minted id, the counter rises by one and the directory by one entry; a known address keeps its id and the counter and moves to the tail; the lease ends at now + 3000; the messages are exactly RegisterMessages in order; the invariant holds |
| Broker.Broker.Deregister | aqua/blatt1/broker/Broker.java:112-126 | an unknown id changes nothing and sends nothing; a known id sends the two neighbour updates and then removes exactly its entry |
| Broker.Broker.Handoff | aqua/blatt1/broker/Broker.java:90-110 | an unregistered sender gets nothing relayed; otherwise the unchanged request goes to the sender's left neighbour for a fish swimming left, to the right neighbour for one swimming right |
| Broker.Broker.NameResolution | aqua/blatt1/broker/Broker.java:213-221 | a known tank id answers the sender with its address and the request id; an unknown one sends nothing |
| Broker.Broker.CheckLeases | aqua/blatt1/broker/Broker.java:77-86 | one pass leaves the directory and the messages of the as-written sweep (SweptFrom, SweepMessages) and keeps the invariant |
| Broker.Broker.Handle | aqua/blatt1/broker/Broker.java:194-225 | each payload reaches its handler with that handler's full effect on directory, counter and messages (registration, deregistration, handoff relay, name resolution); only registration changes the counter; other payloads change nothing |
| RingView.DeliverAllAppend | aqua/blatt1/client/ClientCommunicator.java:68-79 | delivering two batches of messages in turn is delivering them together |
| RingView.DeliverAllIgnoresOthers | aqua/blatt1/client/ClientCommunicator.java:60-83 | messages that are not neighbour updates leave every tank's neighbour fields alone |
| RingView.RemoveNeighbours | aqua/blatt1/broker/Broker.java:119-125 | after a removal only the removed entry's two neighbours see new neighbours, and they face each other |
| RingView.AddNeighbours | aqua/blatt1/broker/Broker.java:141-145 | after an append at the tail only the first and the last old entries see new neighbours |
| RingView.DeregisterKeepsConsistent | aqua/blatt1/broker/Broker.java:119-125 | once the two deregistration updates are delivered, every remaining tank knows its neighbours in the shrunk directory |
| RingView.RegisterFreshKeepsConsistent | aqua/blatt1/broker/Broker.java:138-159 | once a first registration's messages are delivered, every tank, the new one included, knows its neighbours in the grown directory |
| RingView.SweepKeepsConsistent | aqua/blatt1/broker/Broker.java:77-86 | once the messages of a lease pass are delivered in order, every tank left in the directory knows its neighbours, a skipped expired client included |
| RingView.RenewalLeavesStaleNeighbours | aqua/blatt1/broker/Broker.java:132-151 | in the ring a, b, c, a renewal by b leaves a with a stale right neighbour |
| RingView.RenewalKeepsConsistent | aqua/blatt1/broker/Broker.java:132-151 | a renewal that first tells the former neighbours about each other keeps every tank's view consistent |
| LeaseSweep.SweepKeepsLive | aqua/blatt1/broker/Broker.java:77-86 | the sweep never removes a client whose lease runs at now |
| LeaseSweep.SweepOnlyRemoves | aqua/blatt1/broker/Broker.java:77-86 | the sweep only removes entries |
| LeaseSweep.SweptFromFilters | aqua/blatt1/broker/Broker.java:77-86 | where no two adjacent entries after the start are both expired, the as-written pass keeps the prefix and removes exactly the expired entries, in order |
| LeaseSweep.SweptFromExactWithoutAdjacentExpired | aqua/blatt1/broker/Broker.java:77-86 | over a directory without two adjacent expired clients, one as-written pass keeps exactly the live clients, in order |
| LeaseSweep.SweepSkipsAfterRemoval | aqua/blatt1/broker/Broker.java:77-86 | of two adjacent expired clients the as-written pass removes only the first |
| LeaseSweep.LiveEntriesExact | aqua/blatt1/broker/Broker.java:80 | an entry passes the lease filter exactly when it is present and live |
| LeaseSweep.SweptAllFromFilters | aqua/blatt1/broker/Broker.java:77-86 | the corrected pass keeps what lies before its start and filters the rest |
| LeaseSweep.SweptAllExact | aqua/blatt1/broker/Broker.java:77-86 | one corrected pass keeps exactly the live clients, in order |
| Tank.CountPresent | aqua/blatt1/client/TankModel.java:61-63 | the local count is at most the number of fish, and equals it exactly when no fish is departing |
| Tank.CountPresentAppend | aqua/blatt1/client/TankModel.java:61-63 | the count is additive over a split of the fish |
| Tank.FishNameInjective | aqua/blatt1/client/TankModel.java:156 | one tank never gives two fish counters the same "fish<n>@<id>" name |
| Tank.Clamp | aqua/blatt1/client/TankModel.java:153-154 | the clamped coordinate is at most the bound and at most the input, and is one of the two |
| Tank.Side | aqua/blatt1/client/TankModel.java:210-211 | the hint for a fish handed off is LEFT exactly for a fish swimming left, RIGHT otherwise, never HERE |
| Tank.Hint | aqua/blatt1/client/TankModel.java:254 | the stored hint for a fish seen before, LEFT for a fish never seen |
| Tank.FirstFish | aqua/blatt1/client/TankModel.java:257-262 | the first fish with the id, or -1 exactly when there is none |
| Tank.NoTokenNoHandoff | aqua/blatt1/client/TankModel.java:206-215 | without the token a tick hands off nothing and changes no hint |
| Tank.HandoffsGoTowardsFish | aqua/blatt1/client/TankModel.java:206-211 | with the token, every handoff goes to the set neighbour on the side the fish swims towards and carries that fish |
| Tank.HandoffsExact | aqua/blatt1/client/TankModel.java:206-211 | with the token, a tick sends a handoff exactly for each fish that reaches the edge towards a set neighbour, carrying that fish to that neighbour |
| Tank.HintsKeepOthers | aqua/blatt1/client/TankModel.java:206-211 | with the token, an id that no fish reaching the edge carries keeps its hint, or its lack of one |
| Tank.HintsRecordLastCrossing | aqua/blatt1/client/TankModel.java:210-211 | with the token, a fish that reaches the edge ends with the hint of the side it left by, unless a later fish of that name reaches the edge |
| Tank.KeptExact | aqua/blatt1/client/TankModel.java:204-218 | the fish kept by a tick are exactly the moved fish that have not disappeared, turned round at the edge without the token and never turned with it |
| Tank.TankModel.constructor | aqua/blatt1/client/TankModel.java:31-51 | no id, no fish, no neighbours, no token, no snapshot in progress, nothing sent |
| Tank.TankModel.SetLeftNeighbour | aqua/blatt1/client/TankModel.java:53-55 | the left neighbour is the given address |
| Tank.TankModel.SetRightNeighbour | aqua/blatt1/client/TankModel.java:57-59 | the right neighbour is the given address |
| Tank.TankModel.CalculateLocalState | aqua/blatt1/client/TankModel.java:61-63 | the number of fish not departing, at most the number of fish |
| Tank.TankModel.InitiateSnapshot | aqua/blatt1/client/TankModel.java:65-72 | both channels recorded, the count saved, the tank becomes collector, markers to the left and then the right |
| Tank.TankModel.ReceiveSnapshotToken | aqua/blatt1/client/TankModel.java:74-82 | with no count held the collector receives the value and stops collecting; with a count, value plus count goes left; the count is cleared; a tank with neither faults |
| Tank.TankModel.ReceiveSnapshotMarker | aqua/blatt1/client/TankModel.java:84-126 | Idle records the count, waits for the other side (left tested first) and sends markers left then right; a one-sided recording closes only on a marker from that side; Both drops the marker's side; a closing collector sends its count left and clears it |
| Tank.TankModel.ReceiveToken | aqua/blatt1/client/TankModel.java:128-129 | the tank holds the token |
| Tank.TankModel.TokenTimeout | aqua/blatt1/client/TankModel.java:131-139 | the token is released and, if it was held, passed to a set left neighbour |
| Tank.TankModel.HasToken | aqua/blatt1/client/TankModel.java:142-144 | whether the tank holds the token |
| Tank.TankModel.OnRegistration | aqua/blatt1/client/TankModel.java:146-149 | the id is set and, unless the tank is full, a fish named after the new id appears at the right edge and is marked HERE; a full tank keeps its fish, counter and hints |
| Tank.TankModel.NewFish | aqua/blatt1/client/TankModel.java:151-162 | a full tank (5 fish) is unchanged; otherwise the counter rises by one and a fish named "fish<counter>@<id>" appears at the clamped position, marked HERE |
| Tank.TankModel.ReceiveFish | aqua/blatt1/client/TankModel.java:164-186 | the fish is added and marked HERE; the count rises by one in Both, in RecordingLeft for a fish swimming right, in RecordingRight for one swimming left, never in Idle; a missing count faults |
| Tank.TankModel.UpdateFishies | aqua/blatt1/client/TankModel.java:200-220 | the fish, the handoffs and the hints after a tick are Kept, Handoffs and Hints of the fish before it, which KeptExact, HandoffsExact, NoTokenNoHandoff, HintsKeepOthers and HintsRecordLastCrossing characterise |
| Tank.TankModel.Finish | aqua/blatt1/client/TankModel.java:241-246 | a deregistration for the tank's id, then the token to a set left neighbour if held |
| Tank.TankModel.LocateFishGlobally | aqua/blatt1/client/TankModel.java:252-267 | when the hint is HERE the first fish of that id is toggled and nothing is sent; otherwise a location request goes to the neighbour the hint names |
| Scenario.TwoTankSnapshot | aqua/blatt1/client/TankModel.java:65-126 | in a ring of two tanks holding two fish each, with one fish in transit, the collector receives 5 |

## Left out

- Encryption and serialisation of messages (SecureEndpoint.java) are not part of this model, and neither is the transport. The network is the `outbox` log, and a message is delivered by calling the receiving method.
- The Swing views and snapshot controllers are not part of this model. Neither is the Poisoner, nor the broker's receive loop with its poison pill and worker pool.
- Concurrency is not modelled. This covers the broker's read/write lock (name resolution takes none), the tank's `synchronized` methods (`receiveSnapshotToken` and `receiveSnapshotMarker` are not synchronized), and the `volatile` fields. Each method runs atomically.
- Timers are explicit events: `Broker.Broker.CheckLeases` is one lease pass, and `Tank.TankModel.TokenTimeout` is the token timer firing.
- The clock, `Random` and fish physics are parameters. This covers `now`, the spawn height and direction, and `Physics` with its step, edge test and disappearance test. FishModel is not part of this model. A fish is a record: id, position, direction, departing, toggled. A new fish is taken to be neither departing nor toggled. `setToStart` on a received fish is not modelled.
- The tank's fish are a set iterated in an unspecified order. The model keeps them in insertion order, so `UpdateFishies` sends handoffs in that order.
- ClientCollection is not part of this model. Its assumed contract is in `ClientCollection`: first-match lookup, append at the tail, removal that shifts later entries down, and the neighbour indices (i-1+n)%n and (i+1)%n.
- The default branch of the broker's handoff direction switch is unreachable: a direction is LEFT or RIGHT.
- The NameResolutionRequest case falls through into the default case, which only logs.
- `Broker.Broker.Deregister`: a missing (null) id is taken to match no entry.
- The forwarder methods that send snapshot markers, snapshot tokens and location requests are not shown. Their messages are logged with the neighbour as an `Option`, with no guarantee about an unset neighbour. Only `handOff` and `handoverToken` are shown to drop a message to an unset neighbour.
- `receiveLocationResponse` only calls `locateFishGlobally`, which is modelled. No handler for location requests is shown.
- `Broker.Broker.Register`: does not model the 32-bit wrap-around of the id counter, which would repeat ids after 2^32 registrations.
- `Tank.TankModel.ReceiveSnapshotToken`: does not model 32-bit wrap-around of the summed count.
- `Tank.TankModel.NewFish`: does not model 32-bit wrap-around of the fish counter.
- `Tank.TankModel.ReceiveSnapshotMarker`: faults when a closing collector holds no count. The shown code hands a null count to a forwarder method that is not shown; that method is taken to fail.
- `Tank.TankModel.TokenTimeout`: the single-token property (exactly one tank holds the token once the ring settles, and the token is never lost) is not proved, because the code as written breaks it. A timeout with no left neighbour clears the flag and sends nothing, so the token is lost.
- `Tank.TankModel.Finish`: the single-token property is not proved for leaving either. `finish` passes a held token left but leaves the flag set, so a later timeout passes it a second time and two tokens are in the ring.
- Snapshot conservation is proved for one concrete ring (`Scenario.TwoTankSnapshot`), not for every ring and every interleaving.
- Log output (`System.out`) is not modelled.

## Findings

| source | as written | input that shows it | evidently intended | confidence | as-written member | corrected member |
|---|---|---|---|---|---|---|
| aqua/blatt1/broker/Broker.java:77-86 | the loop index moves on after an expired entry is removed | two adjacent expired clients: the second slides into the freed slot and is never examined | every expired client is removed in one pass | medium, not executed | LeaseSweep.SweepSkipsAfterRemoval | LeaseSweep.SweptAllExact |
| aqua/blatt1/broker/Broker.java:132-151 | a renewal moves the client's entry to the tail but tells only its new neighbours | ring a, b, c with b registering again: the directory becomes a, c, b, yet a still has b as its right neighbour and c still has b as its left | the former neighbours are told about each other first, as in a deregistration | medium, not executed | RingView.RenewalLeavesStaleNeighbours | RingView.RenewalKeepsConsistent |

`Broker.Broker` follows the code as written. The corrected pass
(`LeaseSweep.SweptAllFrom`) and the corrected renewal messages
(`RingView.RenewalMessages`) are defined beside it, with their intended
property proved.
