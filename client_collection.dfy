/** The broker's directory: an insertion-ordered sequence of (id, client)
    entries, searched front to back, extended at the tail, and read as a ring
    in which the entry before the first is the last. */
module ClientCollection {
  import opened Common

  /** A registered tank: its address and the time its lease runs out. */
  datatype Client = Client(addr: Addr, endOfLease: int)

  datatype Entry = Entry(id: string, client: Client)

  /** Client equality as the broker defines it: by address only, whatever the
      lease. */
  predicate SameClient(a: Client, b: Client) {
    a.addr == b.addr
  }

  /** The index of the first entry equal to `c` (by address), or -1. */
  function IndexOfClient(s: seq<Entry>, c: Client): (r: int)
    ensures -1 <= r < |s|
    ensures 0 <= r ==> SameClient(s[r].client, c)
    ensures 0 <= r ==> forall j :: 0 <= j < r ==> !SameClient(s[j].client, c)
    ensures r == -1 <==> forall j :: 0 <= j < |s| ==> !SameClient(s[j].client, c)
  {
    if |s| == 0 then -1
    else if SameClient(s[0].client, c) then 0
    else
      var k := IndexOfClient(s[1..], c);
      if k < 0 then -1 else k + 1
  }

  /** The index of the first entry with id `id`, or -1. */
  function IndexOfId(s: seq<Entry>, id: string): (r: int)
    ensures -1 <= r < |s|
    ensures 0 <= r ==> s[r].id == id
    ensures 0 <= r ==> forall j :: 0 <= j < r ==> s[j].id != id
    ensures r == -1 <==> forall j :: 0 <= j < |s| ==> s[j].id != id
  {
    if |s| == 0 then -1
    else if s[0].id == id then 0
    else
      var k := IndexOfId(s[1..], id);
      if k < 0 then -1 else k + 1
  }

  /** The client registered under `id`, if any. */
  function GetClientById(s: seq<Entry>, id: string): (r: Option<Client>)
    ensures r.None? <==> forall j :: 0 <= j < |s| ==> s[j].id != id
    ensures r.Some? ==> exists j :: 0 <= j < |s| && s[j] == Entry(id, r.value)
  {
    var i := IndexOfId(s, id);
    if i < 0 then None else Some(s[i].client)
  }

  /** Appends an entry at the tail. */
  function Add(s: seq<Entry>, id: string, c: Client): (r: seq<Entry>)
    ensures |r| == |s| + 1 && r[..|s|] == s && r[|s|] == Entry(id, c)
  {
    s + [Entry(id, c)]
  }

  /** Removes the entry at index `i`; the others keep their order. */
  function Remove(s: seq<Entry>, i: nat): (r: seq<Entry>)
    requires i < |s|
    ensures |r| == |s| - 1
  {
    s[..i] + s[i + 1..]
  }

  /** After removing entry `i`, the entries before it stay where they were,
      the ones after it move down one slot, and nothing else is lost. */
  lemma RemoveShifts(s: seq<Entry>, i: nat)
    requires i < |s|
    ensures forall j :: 0 <= j < i ==> Remove(s, i)[j] == s[j]
    ensures forall j :: i <= j < |s| - 1 ==> Remove(s, i)[j] == s[j + 1]
    ensures multiset(Remove(s, i)) + multiset{s[i]} == multiset(s)
  {
    assert s == s[..i] + [s[i]] + s[i + 1..];
  }

  /** The index of the left neighbour of slot `i` in a ring of `n` slots. */
  function LeftIndex(i: nat, n: nat): (r: nat)
    requires i < n
    ensures r < n
    ensures r == if i == 0 then n - 1 else i - 1
  {
    (i - 1 + n) % n
  }

  /** The index of the right neighbour of slot `i` in a ring of `n` slots. */
  function RightIndex(i: nat, n: nat): (r: nat)
    requires i < n
    ensures r < n
    ensures r == if i == n - 1 then 0 else i + 1
  {
    (i + 1) % n
  }

  /** Left and right are inverse: the right neighbour of my left neighbour is
      me, and the other way round. */
  lemma NeighboursInverse(i: nat, n: nat)
    requires i < n
    ensures RightIndex(LeftIndex(i, n), n) == i
    ensures LeftIndex(RightIndex(i, n), n) == i
  {
  }

  function LeftNeighbourOf(s: seq<Entry>, i: nat): Client
    requires i < |s|
  {
    s[LeftIndex(i, |s|)].client
  }

  function RightNeighbourOf(s: seq<Entry>, i: nat): Client
    requires i < |s|
  {
    s[RightIndex(i, |s|)].client
  }

  predicate DistinctIds(s: seq<Entry>) {
    forall j, k :: 0 <= j < k < |s| ==> s[j].id != s[k].id
  }

  predicate DistinctAddrs(s: seq<Entry>) {
    forall j, k :: 0 <= j < k < |s| ==> s[j].client.addr != s[k].client.addr
  }

  /** The lease plays no part in looking a client up: two clients at the same
      address are found at the same index. This is what turns a second
      registration from one address into a renewal. */
  lemma {:induction false} IndexOfClientIgnoresLease(s: seq<Entry>, a: Addr, e1: int, e2: int)
    ensures IndexOfClient(s, Client(a, e1)) == IndexOfClient(s, Client(a, e2))
  {
    if |s| > 0 {
      IndexOfClientIgnoresLease(s[1..], a, e1, e2);
    }
  }

  /** In a directory with distinct ids, the index of an id is its only
      position. */
  lemma IndexOfUniqueId(s: seq<Entry>, i: nat)
    requires DistinctIds(s) && i < |s|
    ensures IndexOfId(s, s[i].id) == i
  {
  }

  /** Removing an entry keeps ids and addresses distinct, and the id and the
      address of the removed entry no longer occur. */
  lemma RemoveKeepsDistinct(s: seq<Entry>, i: nat)
    requires i < |s| && DistinctIds(s) && DistinctAddrs(s)
    ensures DistinctIds(Remove(s, i)) && DistinctAddrs(Remove(s, i))
    ensures IndexOfId(Remove(s, i), s[i].id) == -1
    ensures IndexOfClient(Remove(s, i), s[i].client) == -1
  {
    var r := Remove(s, i);
    RemoveShifts(s, i);
    forall j, k | 0 <= j < k < |r|
      ensures r[j].id != r[k].id && r[j].client.addr != r[k].client.addr
    {
      var j' := if j < i then j else j + 1;
      var k' := if k < i then k else k + 1;
      assert r[j] == s[j'] && r[k] == s[k'] && j' < k';
    }
    forall j | 0 <= j < |r| ensures r[j].id != s[i].id && r[j].client.addr != s[i].client.addr {
      var j' := if j < i then j else j + 1;
      assert r[j] == s[j'] && j' != i;
    }
  }

  /** Appending an entry whose id and address are both absent keeps ids and
      addresses distinct. */
  lemma AddFreshKeepsDistinct(s: seq<Entry>, id: string, c: Client)
    requires DistinctIds(s) && DistinctAddrs(s)
    requires IndexOfId(s, id) == -1 && IndexOfClient(s, c) == -1
    ensures DistinctIds(Add(s, id, c)) && DistinctAddrs(Add(s, id, c))
  {
  }
}
