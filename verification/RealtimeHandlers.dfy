/**
 Any number of HandleWebSocket calls, interleaved between their effects on the connection registry and on the
 table of notification subscriptions. Each effect holds one mutex and is one step.
 */
module RealtimeHandlers {
  import opened Base
  import opened ConnectionRegistry

  /** The per-user subscriptions; a broker that refuses leaves the table as it is. */
  class NotificationSubscriber {
    var subs: set<string>

    constructor ()
      ensures subs == {}
    {
      subs := {};
    }

    method SubscribeUser(user: string, brokerAccepts: bool) returns (r: Result<(), ()>)
      modifies this
      ensures subs == Subscribed(old(subs), user, brokerAccepts)
      ensures r.Ok? <==> user in subs
    {
      if user in subs {
        return Ok(());
      }
      if !brokerAccepts {
        return Err(());
      }
      subs := subs + {user};
      return Ok(());
    }

    method UnsubscribeUser(user: string)
      modifies this
      ensures subs == old(subs) - {user}
    {
      if user in subs {
        subs := subs - {user};
      }
    }
  }

  function Subscribed(subs: set<string>, user: string, brokerAccepts: bool): set<string> {
    if brokerAccepts then subs + {user} else subs
  }

  /** The effect a handler performs next. */
  datatype Stage =
    | Opened       // register the client
    | Listed       // subscribe the user
    | Connected    // read until the connection ends, then unregister the client
    | Closed       // ask whether the user is still online
    | Leaving      // unsubscribe the user, found offline
    | Returned

  datatype Handler = Handler(client: Client, stage: Stage)

  datatype State = State(registry: Registry, subs: set<string>, handlers: seq<Handler>)

  const INITIAL := State(EMPTY, {}, [])

  datatype Event = Open(user: string, device: string) | Step(h: nat, brokerAccepts: bool)

  predicate Enabled(s: State, e: Event) {
    e.Step? ==> e.h < |s.handlers| && s.handlers[e.h].stage != Returned
  }

  function MoveTo(s: State, h: nat, stage: Stage): State
    requires h < |s.handlers|
  {
    s.(handlers := s.handlers[h := s.handlers[h].(stage := stage)])
  }

  function Next(s: State, e: Event): State
    requires Enabled(s, e)
  {
    match e
    case Open(user, device) =>
      s.(handlers := s.handlers + [Handler(Client(user, device, |s.handlers|), Opened)])
    case Step(h, brokerAccepts) =>
      var c := s.handlers[h].client;
      match s.handlers[h].stage
      case Opened => MoveTo(s.(registry := Registered(s.registry, c)), h, Listed)
      case Listed => MoveTo(s.(subs := Subscribed(s.subs, c.user, brokerAccepts)), h, Connected)
      case Connected => MoveTo(s.(registry := Unregistered(s.registry, c)), h, Closed)
      case Closed => MoveTo(s, h, if Online(s.registry, c.user) then Returned else Leaving)
      case Leaving => MoveTo(s.(subs := s.subs - {c.user}), h, Returned)
  }

  function Exec(es: seq<Event>): Option<State> {
    if es == [] then Some(INITIAL)
    else
      var before := Exec(es[..|es| - 1]);
      if before.Some? && Enabled(before.value, es[|es| - 1]) then Some(Next(before.value, es[|es| - 1])) else None
  }

  // ---------- No subscription outlives its handlers ----------

  /** A handler of the user whose client may be in the registry. */
  ghost predicate Attached(s: State, h: int, user: string) {
    0 <= h < |s.handlers| && s.handlers[h].client.user == user
    && (s.handlers[h].stage == Listed || s.handlers[h].stage == Connected)
  }

  /** A handler of the user that has registered and not returned. */
  ghost predicate Responsible(s: State, h: int, user: string) {
    0 <= h < |s.handlers| && s.handlers[h].client.user == user
    && s.handlers[h].stage != Opened && s.handlers[h].stage != Returned
  }

  ghost predicate Numbered(s: State) {
    forall h :: 0 <= h < |s.handlers| ==> s.handlers[h].client.id == h
  }

  ghost predicate HoldersAttached(s: State) {
    forall c :: Holds(s.registry, c) ==>
      c.id < |s.handlers| && s.handlers[c.id].client == c && Attached(s, c.id, c.user)
  }

  ghost predicate SubsAnswered(s: State) {
    forall user :: user in s.subs ==> exists h :: Responsible(s, h, user)
  }

  ghost predicate Inv(s: State) {
    Tidy(s.registry) && Numbered(s) && HoldersAttached(s) && SubsAnswered(s)
  }

  /** A user who is online has an attached handler. */
  lemma OnlineAttached(s: State, user: string) returns (h: nat)
    requires Inv(s) && Online(s.registry, user)
    ensures Attached(s, h, user)
  {
    var device :| device in s.registry.clients[user];
    var c := s.registry.clients[user][device];
    assert Holds(s.registry, c);
    h := c.id;
  }

  lemma NextHolders(s: State, e: Event)
    requires Inv(s) && Enabled(s, e)
    ensures var s' := Next(s, e); Tidy(s'.registry) && Numbered(s') && HoldersAttached(s')
  {
    var s' := Next(s, e);
    if e.Step? {
      var d := s.handlers[e.h].client;
      forall c
        ensures Holds(s'.registry, c) ==>
          c.id < |s'.handlers| && s'.handlers[c.id].client == c && Attached(s', c.id, c.user)
        ensures Tidy(s'.registry)
      {
        if s.handlers[e.h].stage == Opened {
          RegisteredHolds(s.registry, d, c);
        } else if s.handlers[e.h].stage == Connected {
          UnregisteredHolds(s.registry, d, c);
        }
      }
    }
  }

  lemma NextSubs(s: State, e: Event, user: string)
    requires Inv(s) && Enabled(s, e) && user in Next(s, e).subs
    ensures exists h :: Responsible(Next(s, e), h, user)
  {
    var s' := Next(s, e);
    if user in s.subs {
      var h :| Responsible(s, h, user);
      if Responsible(s', h, user) {
      } else {
        // The handler itself just returned: it found the user online, so another one is attached.
        var g := OnlineAttached(s, user);
        assert Responsible(s', g, user);
      }
    } else {
      assert Responsible(s', e.h, user);
    }
  }

  lemma {:induction false} RunKeeps(es: seq<Event>)
    requires Exec(es).Some?
    ensures Inv(Exec(es).value)
  {
    if es != [] {
      var s, e := Exec(es[..|es| - 1]).value, es[|es| - 1];
      RunKeeps(es[..|es| - 1]);
      NextHolders(s, e);
      forall user | user in Next(s, e).subs ensures exists h :: Responsible(Next(s, e), h, user) {
        NextSubs(s, e, user);
      }
    }
  }

  /** Every handler of the user has returned. */
  ghost predicate AllReturned(s: State, user: string) {
    forall h :: 0 <= h < |s.handlers| && s.handlers[h].client.user == user ==> s.handlers[h].stage == Returned
  }

  /**
   In every interleaving, reconnects and refused subscriptions included: once all handlers of a user have
   returned, the user has no registry entry and no subscription.
   */
  lemma NoLeak(es: seq<Event>, user: string)
    requires Exec(es).Some? && AllReturned(Exec(es).value, user)
    ensures user !in Exec(es).value.registry.clients && user !in Exec(es).value.subs
  {
    RunKeeps(es);
    var s := Exec(es).value;
    if user in s.registry.clients {
      var h := OnlineAttached(s, user);
      assert false;
    }
  }

  /**
   A handler that is done with its connection unsubscribes the user exactly if it finds no client of the user in the
   registry; otherwise it returns and touches nothing.
   */
  lemma CheckExact(s: State, h: nat, brokerAccepts: bool)
    requires Enabled(s, Step(h, brokerAccepts)) && s.handlers[h].stage == Closed && Inv(s)
    ensures var s', user := Next(s, Step(h, brokerAccepts)), s.handlers[h].client.user;
      && s'.registry == s.registry && s'.subs == s.subs
      && (s'.handlers[h].stage == Leaving <==> forall c :: Holds(s.registry, c) ==> c.user != user)
      && (s'.handlers[h].stage == Returned <==> exists c :: Holds(s.registry, c) && c.user == user)
  {
    var user := s.handlers[h].client.user;
    if Online(s.registry, user) {
      var device :| device in s.registry.clients[user];
      assert Holds(s.registry, s.registry.clients[user][device]);
    }
  }

  // ---------- Whether a connected user stays subscribed ----------

  ghost predicate ConnectedAs(s: State, h: int, user: string) {
    0 <= h < |s.handlers| && s.handlers[h].client.user == user && s.handlers[h].stage == Connected
  }

  ghost predicate IsConnected(s: State, user: string) {
    exists h :: ConnectedAs(s, h, user)
  }

  /**
   The steps that cut a connected user off: an unsubscription decided before another connection of the user
   came up, and a subscription the broker refuses.
   */
  ghost predicate CutsOff(s: State, e: Event, user: string) {
    && e.Step? && e.h < |s.handlers| && s.handlers[e.h].client.user == user
    && ((s.handlers[e.h].stage == Leaving && IsConnected(s, user))
        || (s.handlers[e.h].stage == Listed && !e.brokerAccepts && user !in s.subs))
  }

  predicate Subscribes(s: State, e: Event, user: string) {
    && e.Step? && e.h < |s.handlers| && s.handlers[e.h].stage == Listed
    && s.handlers[e.h].client.user == user && e.brokerAccepts
  }

  /** A step cut the user off, and no subscription of the user was accepted since. */
  ghost predicate WasCutOff(es: seq<Event>, user: string) {
    es != [] &&
    var k := |es| - 1;
    var before := Exec(es[..k]);
    before.Some? && (CutsOff(before.value, es[k], user)
                     || (WasCutOff(es[..k], user) && !Subscribes(before.value, es[k], user)))
  }

  /** A step takes away the subscription of a user who is connected afterwards exactly when it cuts the user off. */
  lemma CoverStep(s: State, e: Event, user: string)
    requires Enabled(s, e)
    ensures CutsOff(s, e, user) ==> user !in Next(s, e).subs
    ensures user !in s.subs && !Subscribes(s, e, user) ==> user !in Next(s, e).subs
    ensures Subscribes(s, e, user) ==> user in Next(s, e).subs
    ensures IsConnected(Next(s, e), user) && !CutsOff(s, e, user) && (IsConnected(s, user) ==> user in s.subs) ==>
      user in Next(s, e).subs
  {
    var s' := Next(s, e);
    if h :| ConnectedAs(s', h, user) {
      if !ConnectedAs(s, h, user) {
        assert e.Step? && e.h == h && s.handlers[h].stage == Listed;
      }
    }
  }

  lemma {:induction false} RunCovered(es: seq<Event>, user: string)
    requires Exec(es).Some?
    ensures WasCutOff(es, user) ==> user !in Exec(es).value.subs
    ensures IsConnected(Exec(es).value, user) && !WasCutOff(es, user) ==> user in Exec(es).value.subs
  {
    if es != [] {
      RunCovered(es[..|es| - 1], user);
      CoverStep(Exec(es[..|es| - 1]).value, es[|es| - 1], user);
    }
  }

  /** In every run a connected user is subscribed exactly when no step has cut the user off since. */
  lemma CoverExact(es: seq<Event>, user: string)
    requires Exec(es).Some? && IsConnected(Exec(es).value, user)
    ensures user in Exec(es).value.subs <==> !WasCutOff(es, user)
  {
    RunCovered(es, user);
  }

  /** Extends a run by one step into a known state. */
  lemma Then(es: seq<Event>, s: State, e: Event, s': State) returns (es': seq<Event>)
    requires Exec(es) == Some(s) && Enabled(s, e) && Next(s, e) == s'
    ensures Exec(es') == Some(s')
  {
    es' := es + [e];
    assert es'[..|es|] == es;
  }

  /** A user connects and disconnects; the handler has found the user offline and is about to unsubscribe. */
  lemma AboutToUnsubscribe(c: Client) returns (es: seq<Event>)
    requires c.id == 0
    ensures Exec(es) == Some(State(EMPTY, {c.user}, [Handler(c, Leaving)]))
  {
    var s1 := State(EMPTY, {}, [Handler(c, Opened)]);
    var s2 := State(Registry(map[c.user := map[c.device := c]], multiset{}), {}, [Handler(c, Listed)]);
    var s3 := s2.(subs := {c.user}, handlers := [Handler(c, Connected)]);
    var s4 := State(EMPTY, {c.user}, [Handler(c, Closed)]);
    assert map[c.device := c] - {c.device} == map[];
    assert map[c.user := map[c.device := c]] - {c.user} == map[];
    es := Then([], INITIAL, Open(c.user, c.device), s1);
    es := Then(es, s1, Step(0, true), s2);
    es := Then(es, s2, Step(0, true), s3);
    es := Then(es, s3, Step(0, true), s4);
    es := Then(es, s4, Step(0, true), State(EMPTY, {c.user}, [Handler(c, Leaving)]));
  }

  /** Meanwhile the user reconnects, and the broker accepts the subscription again. */
  lemma Reconnected(c: Client, d: Client) returns (es: seq<Event>)
    requires c.id == 0 && d == c.(id := 1)
    ensures Exec(es) == Some(State(Registry(map[d.user := map[d.device := d]], multiset{}), {d.user},
                                   [Handler(c, Leaving), Handler(d, Connected)]))
  {
    es := AboutToUnsubscribe(c);
    var s0 := State(EMPTY, {c.user}, [Handler(c, Leaving)]);
    var s1 := s0.(handlers := [Handler(c, Leaving), Handler(d, Opened)]);
    var s2 := State(Registry(map[d.user := map[d.device := d]], multiset{}), {d.user},
                    [Handler(c, Leaving), Handler(d, Listed)]);
    es := Then(es, s0, Open(d.user, d.device), s1);
    es := Then(es, s1, Step(1, true), s2);
    es := Then(es, s2, Step(1, true), s2.(handlers := [Handler(c, Leaving), Handler(d, Connected)]));
  }

  /** A user who reconnects between the check and the unsubscription stays connected without a subscription. */
  lemma ReconnectRace(user: string, device: string) returns (es: seq<Event>)
    ensures Exec(es).Some? && Online(Exec(es).value.registry, user)
    ensures user !in Exec(es).value.subs && exists h :: ConnectedAs(Exec(es).value, h, user)
  {
    var c, d := Client(user, device, 0), Client(user, device, 1);
    es := Reconnected(c, d);
    var registry := Registry(map[user := map[device := d]], multiset{});
    var s' := State(registry, {}, [Handler(c, Returned), Handler(d, Connected)]);
    es := Then(es, State(registry, {user}, [Handler(c, Leaving), Handler(d, Connected)]), Step(0, true), s');
    assert ConnectedAs(s', 1, user);
  }
}
