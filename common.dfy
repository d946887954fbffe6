/** Types shared by the broker and the tanks: addresses, directions, fish and
    the payloads of the message catalogue. */
module Common {

  datatype Option<+T> = None | Some(value: T)

  /** A socket address (host and port), compared by value. */
  datatype Addr = Addr(host: string, port: int)

  /** The two ring directions; a fish travels in one of them. */
  datatype Direction = Left | Right

  /** The other direction. */
  function Opposite(d: Direction): (r: Direction)
    ensures r != d
  {
    match d
    case Left => Right
    case Right => Left
  }

  /** The part of a fish the protocols look at: its identity, its position, its
      travel direction, whether it is leaving the tank, and whether the user has
      toggled it. Its motion is not part of this model. */
  datatype Fish = Fish(id: string, x: int, y: int, direction: Direction, departing: bool, toggled: bool)

  /** The fish with its travel direction turned round. */
  function Reversed(f: Fish): (r: Fish)
    ensures r.direction == Opposite(f.direction)
    ensures r.(direction := f.direction) == f
  {
    f.(direction := Opposite(f.direction))
  }

  /** The payloads the components exchange. */
  datatype Payload =
    | RegisterRequest
    | RegisterResponse(id: string, leaseTime: int)
    | DeregisterRequest(clientId: Option<string>)
    | HandoffRequest(fish: Fish)
    | NeighbourUpdate(side: Direction, neighbour: Addr)
    | Token
    | SnapshotMarker
    | SnapshotToken(state: int)
    | LocationRequest(fishId: string)
    | NameResolutionRequest(tankId: string, requestId: string)
    | NameResolutionResponse(addr: Addr, requestId: string)
    | PoisonPill
}
