/** The registry of live WebSocket connections, keyed by user and device. */
module ConnectionRegistry {
  import opened Base

  /** A connection; `id` is its identity, as two connections of one device are different clients. */
  datatype Client = Client(user: string, device: string, id: nat)

  predicate SameSlot(a: Client, b: Client) { a.user == b.user && a.device == b.device }

  /** The nested client map, and how often each client's Done channel has been closed. */
  datatype Registry = Registry(clients: map<string, map<string, Client>>, closed: multiset<Client>)

  const EMPTY := Registry(map[], multiset{})

  function Devices(r: Registry, user: string): map<string, Client> {
    if user in r.clients then r.clients[user] else map[]
  }

  predicate Holds(r: Registry, c: Client) {
    c.device in Devices(r, c.user) && Devices(r, c.user)[c.device] == c
  }

  function Registered(r: Registry, c: Client): Registry {
    var devices := Devices(r, c.user);
    Registry(r.clients[c.user := devices[c.device := c]],
             if c.device in devices then r.closed + multiset{devices[c.device]} else r.closed)
  }

  function Unregistered(r: Registry, c: Client): Registry {
    if !Holds(r, c) then r
    else
      var devices := Devices(r, c.user) - {c.device};
      r.(clients := if devices == map[] then r.clients - {c.user} else r.clients[c.user := devices])
  }

  predicate Online(r: Registry, user: string) {
    user in r.clients && |r.clients[user]| > 0
  }

  class ConnectionManager {
    var clients: map<string, map<string, Client>>
    var closed: multiset<Client>

    ghost function View(): Registry
      reads this
    {
      Registry(clients, closed)
    }

    constructor ()
      ensures View() == EMPTY
    {
      clients, closed := map[], multiset{};
    }

    method Register(c: Client)
      modifies this
      ensures View() == Registered(old(View()), c)
    {
      if c.user !in clients {
        clients := clients[c.user := map[]];
      }
      if c.device in clients[c.user] {
        closed := closed + multiset{clients[c.user][c.device]};
      }
      clients := clients[c.user := clients[c.user][c.device := c]];
      assert clients == Registered(old(View()), c).clients;
    }

    method Unregister(c: Client)
      modifies this
      ensures View() == Unregistered(old(View()), c)
    {
      if c.user in clients {
        var userClients := clients[c.user];
        if c.device in userClients && userClients[c.device] == c {
          userClients := userClients - {c.device};
          clients := clients[c.user := userClients];
          if |userClients| == 0 {
            clients := clients - {c.user};
          }
          assert clients == Unregistered(old(View()), c).clients;
        }
      }
    }

    method IsOnline(user: string) returns (online: bool)
      ensures online == Online(View(), user)
    {
      online := user in clients && |clients[user]| > 0;
    }

    /** Counts the users of the map; with no empty device map kept, these are the users online. */
    method OnlineCount() returns (n: nat)
      requires Tidy(View())
      ensures n == |set u | u in clients && Online(View(), u)|
    {
      n := |clients|;
      assert (set u | u in clients && Online(View(), u)) == clients.Keys;
    }
  }

  /** Every entry sits under its own user and device, and no user keeps an empty device map. */
  ghost predicate Tidy(r: Registry) {
    forall user :: user in r.clients ==>
      && r.clients[user] != map[]
      && forall device :: device in r.clients[user] ==>
        r.clients[user][device].user == user && r.clients[user][device].device == device
  }

  // ---------- Whole histories ----------

  datatype Call = Reg(client: Client) | Unreg(client: Client)

  /** The registry after any interleaving of calls, each of them atomic under the mutex. */
  function Play(calls: seq<Call>): Registry {
    if calls == [] then EMPTY
    else
      var before, last := Play(calls[..|calls| - 1]), calls[|calls| - 1];
      match last
      case Reg(c) => Registered(before, c)
      case Unreg(c) => Unregistered(before, c)
  }

  /** Each client is registered at most once. */
  ghost predicate Once(calls: seq<Call>) {
    forall i, j :: 0 <= i < j < |calls| && calls[i].Reg? && calls[j].Reg? ==> calls[i].client != calls[j].client
  }

  /** The client has registered, and since then neither left nor seen another client take its slot. */
  predicate Active(calls: seq<Call>, c: Client) {
    calls != [] &&
    var before, last := calls[..|calls| - 1], calls[|calls| - 1];
    match last
    case Reg(d) => d == c || (Active(before, c) && !SameSlot(c, d))
    case Unreg(d) => Active(before, c) && d != c
  }

  /** Another client took the slot of an active client. */
  predicate Replaced(calls: seq<Call>, c: Client) {
    calls != [] &&
    var before, last := calls[..|calls| - 1], calls[|calls| - 1];
    Replaced(before, c) || (last.Reg? && last.client != c && SameSlot(last.client, c) && Active(before, c))
  }

  ghost predicate Faithful(calls: seq<Call>, r: Registry) {
    && Tidy(r)
    && (forall c :: Holds(r, c) <==> Active(calls, c))
    && (forall c :: r.closed[c] == if Replaced(calls, c) then 1 else 0)
    && (forall c :: Replaced(calls, c) ==> !Active(calls, c))
  }

  lemma {:induction false} OnlyIfRegistered(calls: seq<Call>, c: Client)
    requires Active(calls, c) || Replaced(calls, c)
    ensures Reg(c) in calls
  {
    if calls[|calls| - 1] != Reg(c) {
      OnlyIfRegistered(calls[..|calls| - 1], c);
    }
  }

  lemma RegisteredHolds(r: Registry, d: Client, c: Client)
    requires Tidy(r)
    ensures Tidy(Registered(r, d))
    ensures Holds(Registered(r, d), c) <==> c == d || (Holds(r, c) && !SameSlot(c, d))
    ensures Registered(r, d).closed[c] == r.closed[c] + if SameSlot(c, d) && Holds(r, c) then 1 else 0
  {
  }

  lemma UnregisteredHolds(r: Registry, d: Client, c: Client)
    requires Tidy(r)
    ensures Tidy(Unregistered(r, d))
    ensures Holds(Unregistered(r, d), c) <==> Holds(r, c) && c != d
  {
  }

  /**
   In every interleaving of calls by clients that each register once: the registry holds exactly the active
   clients, a Done channel is closed exactly once when its client is replaced and never otherwise, and a client
   in the registry has its Done open.
   */
  lemma {:induction false} RegistryFaithful(calls: seq<Call>)
    requires Once(calls)
    ensures Faithful(calls, Play(calls))
    ensures forall c :: Holds(Play(calls), c) ==> Play(calls).closed[c] == 0
  {
    if calls != [] {
      var k := |calls| - 1;
      var before, last := calls[..k], calls[k];
      RegistryFaithful(before);
      forall c
        ensures Holds(Play(calls), c) <==> Active(calls, c)
        ensures Play(calls).closed[c] == if Replaced(calls, c) then 1 else 0
        ensures Replaced(calls, c) ==> !Active(calls, c)
        ensures Tidy(Play(calls))
      {
        if last.Reg? {
          RegisteredHolds(Play(before), last.client, c);
          if c == last.client && (Active(before, c) || Replaced(before, c)) {
            OnlyIfRegistered(before, c);
          }
        } else {
          UnregisteredHolds(Play(before), last.client, c);
        }
      }
    }
  }
}
