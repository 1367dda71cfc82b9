/** The listener's sessions, by resume token and by client address (src/listener/table.rs). */
module Sessions {
  import opened Common

  type Token = nat
  type Addr = nat
  type Shard = byte

  /** What packets are injected into: one end of a session. */
  type Handle = nat

  datatype Binding = Binding(addr: Addr, used: Time)

  type Shards = map<Shard, Binding>

  datatype Session = Session(back: Handle, shards: Shards)

  /** The sessions, and the index that finds the session of an incoming packet. */
  datatype Table = Table(sessions: map<Token, Session>, index: map<Addr, Token>)

  const EMPTY: Table := Table(map[], map[])

  ghost predicate Holds(shards: Shards, addr: Addr) {
    exists s :: s in shards && shards[s].addr == addr
  }

  /** Every indexed address belongs to a live session that currently holds it, and every
      session holds an address. */
  ghost predicate Honest(tab: Table) {
    && (forall a :: a in tab.index ==> tab.index[a] in tab.sessions && Holds(tab.sessions[tab.index[a]].shards, a))
    && (forall t :: t in tab.sessions ==> tab.sessions[t].shards != map[])
  }

  /** The converse: every address that a session holds leads to that session. */
  ghost predicate Complete(tab: Table) {
    forall t, s :: t in tab.sessions && s in tab.sessions[t].shards ==>
      var a := tab.sessions[t].shards[s].addr; a in tab.index && tab.index[a] == t
  }

  // ----- The operations, as functions of the table -----

  function Rebound(tab: Table, addr: Addr, shard: Shard, token: Token, now: Time): Table {
    if token !in tab.sessions then tab
    else
      var entry := tab.sessions[token];
      var displaced := if shard in entry.shards then {entry.shards[shard].addr} else {};
      Table(tab.sessions[token := entry.(shards := entry.shards[shard := Binding(addr, now)])],
            (tab.index - displaced)[addr := token])
  }

  function Addresses(shards: Shards): set<Addr> {
    set s | s in shards :: shards[s].addr
  }

  function Deleted(tab: Table, token: Token): Table {
    if token !in tab.sessions then tab
    else Table(tab.sessions - {token}, tab.index - Addresses(tab.sessions[token].shards))
  }

  function Found(tab: Table, addr: Addr): Option<Handle> {
    if addr in tab.index && tab.index[addr] in tab.sessions
    then Some(tab.sessions[tab.index[addr]].back) else None
  }

  function Added(tab: Table, token: Token, session: Session): Table {
    tab.(sessions := tab.sessions[token := session])
  }

  // ----- What every operation keeps -----

  lemma ReboundStaysHonest(tab: Table, addr: Addr, shard: Shard, token: Token, now: Time)
    requires Honest(tab)
    ensures Honest(Rebound(tab, addr, shard, token, now))
  {
    if token in tab.sessions {
      var after := Rebound(tab, addr, shard, token, now);
      var shards, shards' := tab.sessions[token].shards, after.sessions[token].shards;
      assert shard in shards' && shards'[shard].addr == addr;
      forall a | a in after.index && a != addr ensures Holds(after.sessions[after.index[a]].shards, a) {
        if after.index[a] == token {
          var s :| s in shards && shards[s].addr == a;
          assert s in shards' && shards'[s].addr == a;
        }
      }
    }
  }

  lemma DeletedStaysHonest(tab: Table, token: Token)
    requires Honest(tab)
    ensures Honest(Deleted(tab, token))
  {
  }

  /** Registering a session keeps the index honest exactly when the addresses that still lead
      to its token are among its own; for a token that is not in use there are none. */
  lemma AddedStaysHonestIff(tab: Table, token: Token, session: Session)
    requires Honest(tab) && session.shards != map[]
    ensures Honest(Added(tab, token, session)) <==>
            forall a :: a in tab.index && tab.index[a] == token ==> Holds(session.shards, a)
    ensures token !in tab.sessions ==> Honest(Added(tab, token, session))
  {
    var after := Added(tab, token, session);
    if Honest(after) {
      forall a | a in tab.index && tab.index[a] == token ensures Holds(session.shards, a) {
        assert a in after.index;
      }
    }
  }

  /** A claim leaves every held address findable exactly when no other session holds the
      claimed one, and the address given up is not also held under another shard. */
  lemma ReboundStaysCompleteIff(tab: Table, addr: Addr, shard: Shard, token: Token, now: Time)
    requires Honest(tab) && Complete(tab) && token in tab.sessions
    ensures var shards := tab.sessions[token].shards;
      Complete(Rebound(tab, addr, shard, token, now)) <==>
        && (forall t :: t in tab.sessions && t != token ==> !Holds(tab.sessions[t].shards, addr))
        && (shard in shards && shards[shard].addr != addr ==>
              forall s :: s in shards && s != shard ==> shards[s].addr != shards[shard].addr)
  {
    var after := Rebound(tab, addr, shard, token, now);
    var shards, shards' := tab.sessions[token].shards, after.sessions[token].shards;
    if Complete(after) {
      forall t | t in tab.sessions && t != token ensures !Holds(tab.sessions[t].shards, addr) {
        assert t in after.sessions && after.sessions[t] == tab.sessions[t];
      }
      if shard in shards && shards[shard].addr != addr {
        forall s | s in shards && s != shard ensures shards[s].addr != shards[shard].addr {
          assert s in shards' && shards'[s].addr in after.index;
        }
      }
    }
    if (forall t :: t in tab.sessions && t != token ==> !Holds(tab.sessions[t].shards, addr))
       && (shard in shards && shards[shard].addr != addr ==>
             forall s :: s in shards && s != shard ==> shards[s].addr != shards[shard].addr) {
      forall t, s | t in after.sessions && s in after.sessions[t].shards
        ensures var a := after.sessions[t].shards[s].addr; a in after.index && after.index[a] == t
      {
        if t != token || s != shard {
          assert s in tab.sessions[t].shards;
          var a := tab.sessions[t].shards[s].addr;
          assert Holds(tab.sessions[t].shards, a);
          assert a in tab.index && tab.index[a] == t;
        }
      }
    }
  }

  lemma DeletedStaysComplete(tab: Table, token: Token)
    requires Complete(tab)
    ensures Complete(Deleted(tab, token))
  {
    var after := Deleted(tab, token);
    forall t, s | t in after.sessions && s in after.sessions[t].shards
      ensures var a := after.sessions[t].shards[s].addr; a in after.index && after.index[a] == t
    {
      assert tab.sessions[t].shards[s].addr in tab.index;
    }
  }

  // ----- Whole runs of the listener -----

  /** A client claims an address for a shard of the session named by its token, or a session ends. */
  datatype Event =
    | Resume(addr: Addr, shard: Shard, token: Token, back: Handle, now: Time)
    | Dead(token: Token)

  /** A claim for a token that is not known starts a session with the given handle. */
  function Resumed(tab: Table, addr: Addr, shard: Shard, token: Token, back: Handle, now: Time): Table {
    if token in tab.sessions then Rebound(tab, addr, shard, token, now)
    else Rebound(Added(tab, token, Session(back, map[shard := Binding(addr, now)])), addr, shard, token, now)
  }

  function Step(tab: Table, e: Event): Table {
    match e
    case Resume(addr, shard, token, back, now) => Resumed(tab, addr, shard, token, back, now)
    case Dead(token) => Deleted(tab, token)
  }

  function Run(events: seq<Event>): Table {
    if events == [] then EMPTY
    else Step(Run(events[..|events| - 1]), events[|events| - 1])
  }

  /** The handle of the session that a history leaves under a token: that of the first claim
      after the last end. */
  function SessionOf(events: seq<Event>, token: Token): Option<Handle> {
    if events == [] then None
    else
      var before := SessionOf(events[..|events| - 1], token);
      match events[|events| - 1]
      case Resume(_, _, t, back, _) => if t == token && before.None? then Some(back) else before
      case Dead(t) => if t == token then None else before
  }

  /** The last claim for a shard of a token, unless the session has ended since. */
  function ClaimOf(events: seq<Event>, token: Token, shard: Shard): Option<Binding> {
    if events == [] then None
    else
      var before := ClaimOf(events[..|events| - 1], token, shard);
      match events[|events| - 1]
      case Resume(addr, s, t, _, now) => if t == token && s == shard then Some(Binding(addr, now)) else before
      case Dead(t) => if t == token then None else before
  }

  function Entry(tab: Table, token: Token, shard: Shard): Option<Binding> {
    if token in tab.sessions && shard in tab.sessions[token].shards
    then Some(tab.sessions[token].shards[shard]) else None
  }

  function Back(tab: Table, token: Token): Option<Handle> {
    if token in tab.sessions then Some(tab.sessions[token].back) else None
  }

  lemma StepStaysHonest(tab: Table, e: Event)
    requires Honest(tab)
    ensures Honest(Step(tab, e))
  {
    match e
    case Resume(addr, shard, token, back, now) =>
      var started := Session(back, map[shard := Binding(addr, now)]);
      assert shard in started.shards;
      if token in tab.sessions {
        ReboundStaysHonest(tab, addr, shard, token, now);
      } else {
        AddedStaysHonestIff(tab, token, started);
        ReboundStaysHonest(Added(tab, token, started), addr, shard, token, now);
      }
    case Dead(token) => DeletedStaysHonest(tab, token);
  }

  /** In every run the table holds exactly what the history says: each token's session, and
      each shard's last claim. The index never dangles. */
  lemma {:induction false} RunMatchesHistory(events: seq<Event>)
    ensures Honest(Run(events))
    ensures forall t :: Back(Run(events), t) == SessionOf(events, t)
    ensures forall t, s :: Entry(Run(events), t, s) == ClaimOf(events, t, s)
    decreases |events|
  {
    if events != [] {
      var before := events[..|events| - 1];
      RunMatchesHistory(before);
      StepStaysHonest(Run(before), events[|events| - 1]);
    }
  }

  /** A packet is only ever handed to a session that is alive and whose latest claim for some
      shard is the address the packet came from. */
  lemma FoundMeansClaimed(events: seq<Event>, addr: Addr)
    requires Found(Run(events), addr).Some?
    ensures exists t, s :: (SessionOf(events, t) == Found(Run(events), addr)
                            && ClaimOf(events, t, s).Some? && ClaimOf(events, t, s).value.addr == addr)
  {
    RunMatchesHistory(events);
    var tab := Run(events);
    var t := tab.index[addr];
    var shards := tab.sessions[t].shards;
    var s :| s in shards && shards[s].addr == addr;
    assert SessionOf(events, t) == Back(tab, t);
    assert ClaimOf(events, t, s) == Entry(tab, t, s);
  }

  /** The latest claim wins: right after it the address leads to the claiming session, and the
      address given up leads nowhere. */
  lemma LatestClaimWins(events: seq<Event>, e: Event)
    requires e.Resume?
    ensures Found(Run(events + [e]), e.addr) == SessionOf(events + [e], e.token)
    ensures Found(Run(events + [e]), e.addr).Some?
    ensures var old' := ClaimOf(events, e.token, e.shard);
      old'.Some? && old'.value.addr != e.addr ==> Found(Run(events + [e]), old'.value.addr).None?
  {
    var all := events + [e];
    assert all[..|all| - 1] == events;
    RunMatchesHistory(events);
    RunMatchesHistory(all);
    assert Back(Run(all), e.token) == SessionOf(all, e.token);
    assert Entry(Run(events), e.token, e.shard) == ClaimOf(events, e.token, e.shard);
  }

  // ----- When every held address can be found -----

  /** Starting a session leaves every held address findable exactly when no other session
      holds the claimed one. */
  lemma StartedStaysCompleteIff(tab: Table, addr: Addr, shard: Shard, token: Token, back: Handle, now: Time)
    requires Complete(tab) && token !in tab.sessions
    ensures Complete(Resumed(tab, addr, shard, token, back, now)) <==>
            forall t :: t in tab.sessions ==> !Holds(tab.sessions[t].shards, addr)
  {
    var after := Resumed(tab, addr, shard, token, back, now);
    assert after.sessions[token].shards == map[shard := Binding(addr, now)];
    if Complete(after) {
      forall t | t in tab.sessions ensures !Holds(tab.sessions[t].shards, addr) {
        assert t in after.sessions && after.sessions[t] == tab.sessions[t];
      }
    }
    if forall t :: t in tab.sessions ==> !Holds(tab.sessions[t].shards, addr) {
      forall t, s | t in after.sessions && s in after.sessions[t].shards
        ensures var a := after.sessions[t].shards[s].addr; a in after.index && after.index[a] == t
      {
        if t != token {
          assert s in tab.sessions[t].shards;
          assert Holds(tab.sessions[t].shards, tab.sessions[t].shards[s].addr);
        }
      }
    }
  }

  /** A claim that no other session's address, and no other shard of its own, gets in the way of. */
  ghost predicate ClearClaim(tab: Table, addr: Addr, shard: Shard, token: Token) {
    && (forall t :: t in tab.sessions && t != token ==> !Holds(tab.sessions[t].shards, addr))
    && (token in tab.sessions && shard in tab.sessions[token].shards ==>
          var shards := tab.sessions[token].shards;
          shards[shard].addr != addr ==>
            forall s :: s in shards && s != shard ==> shards[s].addr != shards[shard].addr)
  }

  /** Exactly which events leave every held address findable: every end of a session, and every
      claim, for a session old or new, of an address that no other session holds and that does
      not give up one also held under another shard. */
  lemma StepStaysCompleteIff(tab: Table, e: Event)
    requires Honest(tab) && Complete(tab)
    ensures Complete(Step(tab, e)) <==> e.Dead? || ClearClaim(tab, e.addr, e.shard, e.token)
  {
    match e
    case Resume(addr, shard, token, back, now) =>
      if token in tab.sessions {
        ReboundStaysCompleteIff(tab, addr, shard, token, now);
      } else {
        StartedStaysCompleteIff(tab, addr, shard, token, back, now);
      }
    case Dead(token) => DeletedStaysComplete(tab, token);
  }

  /** Every claim of a history was clear when it was made. */
  ghost predicate AllClear(events: seq<Event>) {
    events == [] ||
      (AllClear(events[..|events| - 1]) &&
       var e := events[|events| - 1];
       e.Dead? || ClearClaim(Run(events[..|events| - 1]), e.addr, e.shard, e.token))
  }

  lemma {:induction false} ClearRunIsComplete(events: seq<Event>)
    requires AllClear(events)
    ensures Complete(Run(events))
    decreases |events|
  {
    if events != [] {
      var before := events[..|events| - 1];
      ClearRunIsComplete(before);
      RunMatchesHistory(before);
      StepStaysCompleteIff(Run(before), events[|events| - 1]);
    }
  }

  ghost predicate Claims(events: seq<Event>, token: Token, shard: Shard, addr: Addr) {
    ClaimOf(events, token, shard).Some? && ClaimOf(events, token, shard).value.addr == addr
  }

  predicate LeadsTo(tab: Table, addr: Addr, token: Token) {
    addr in tab.index && tab.index[addr] == token
  }

  lemma LeadingIsClaimed(events: seq<Event>, addr: Addr, token: Token) returns (s: Shard)
    requires LeadsTo(Run(events), addr, token)
    ensures Claims(events, token, s, addr)
  {
    RunMatchesHistory(events);
    var tab := Run(events);
    s :| s in tab.sessions[token].shards && tab.sessions[token].shards[s].addr == addr;
    assert Entry(tab, token, s) == ClaimOf(events, token, s);
  }

  lemma ClaimedIsLedTo(events: seq<Event>, addr: Addr, token: Token, s: Shard)
    requires AllClear(events) && Claims(events, token, s, addr)
    ensures LeadsTo(Run(events), addr, token)
  {
    RunMatchesHistory(events);
    ClearRunIsComplete(events);
    var tab := Run(events);
    assert Entry(tab, token, s) == ClaimOf(events, token, s);
    assert s in tab.sessions[token].shards && tab.sessions[token].shards[s].addr == addr;
  }

  /** In a history of clear claims an address leads to a session exactly when that session's
      latest claim for some shard is the address. */
  lemma FoundIffClaimed(events: seq<Event>, addr: Addr, token: Token)
    requires AllClear(events)
    ensures LeadsTo(Run(events), addr, token) <==> exists s :: Claims(events, token, s, addr)
  {
    hide Claims, LeadsTo, AllClear;
    if LeadsTo(Run(events), addr, token) {
      var s := LeadingIsClaimed(events, addr, token);
      assert Claims(events, token, s, addr);
    }
    if exists s :: Claims(events, token, s, addr) {
      var s :| Claims(events, token, s, addr);
      ClaimedIsLedTo(events, addr, token, s);
    }
  }

  /** When two sessions claim one address and the first moves on, the second can no longer be found. */
  lemma SharedAddressIsLost(a: Addr, b: Addr, shard: Shard, now: Time)
    requires a != b
    ensures var events := [Resume(a, shard, 1, 10, now), Resume(a, shard, 2, 20, now), Resume(b, shard, 1, 10, now)];
      && Found(Run(events), a) == None
      && SessionOf(events, 2) == Some(20)
      && ClaimOf(events, 2, shard) == Some(Binding(a, now))
  {
    var first, second, third := Resume(a, shard, 1, 10, now), Resume(a, shard, 2, 20, now), Resume(b, shard, 1, 10, now);
    LatestClaimWins([first, second], third);
    assert [first, second] + [third] == [first, second, third];
    assert [first, second, third][..2] == [first, second] && [first, second][..1] == [first];
    assert [first][..0] == [];
    assert ClaimOf([first], 1, shard) == Some(Binding(a, now));
    assert SessionOf([first], 2) == None;
    assert ClaimOf([first, second], 1, shard) == Some(Binding(a, now));
    assert SessionOf([first, second], 2) == Some(20);
    assert ClaimOf([first, second], 2, shard) == Some(Binding(a, now));
  }

  // ----- The classes -----

  /** An address used less than ten seconds ago. */
  predicate InUse(b: Binding, now: Time) {
    now - b.used < 10_000_000
  }

  /** A shard in recent use if there is any, or else the one used last. */
  ghost predicate BestChoice(shards: Shards, s: Shard, now: Time)
    requires s in shards
  {
    if exists x :: x in shards && InUse(shards[x], now) then InUse(shards[s], now)
    else forall x :: x in shards ==> shards[x].used <= shards[s].used
  }

  class ShardedAddrs {
    var shards: Shards

    constructor (shard: Shard, addr: Addr, now: Time)
      ensures shards == map[shard := Binding(addr, now)]
    {
      shards := map[shard := Binding(addr, now)];
    }

    /** Where to send: any address in recent use, or else the one used last. The map is never
        empty, so there always is one. */
    method GetAddr(order: seq<Shard>, pick: nat, now: Time) returns (addr: Addr)
      requires shards != map[] && forall s :: s in order <==> s in shards
      ensures exists s :: (s in shards && shards[s].addr == addr && BestChoice(shards, s, now))
    {
      var recent: seq<Shard> := [];
      for i := 0 to |order|
        invariant forall s :: s in recent ==> s in shards && InUse(shards[s], now)
        invariant forall j :: 0 <= j < i && InUse(shards[order[j]], now) ==> order[j] in recent
      {
        assert order[i] in order;
        if InUse(shards[order[i]], now) {
          recent := recent + [order[i]];
        }
      }
      if recent == [] {
        var x :| x in shards;
        assert x in order;
        var best := order[0];
        for i := 0 to |order|
          invariant best in shards
          invariant forall j :: 0 <= j < i ==> shards[order[j]].used <= shards[best].used
        {
          assert order[i] in order;
          if shards[order[i]].used >= shards[best].used {
            best := order[i];
          }
        }
        addr := shards[best].addr;
      } else {
        var s := recent[pick % |recent|];
        assert s in recent;
        addr := shards[s].addr;
      }
    }

    method InsertAddr(shard: Shard, addr: Addr, now: Time) returns (previous: Option<Addr>)
      modifies this
      ensures shards == old(shards)[shard := Binding(addr, now)]
      ensures previous == if shard in old(shards) then Some(old(shards)[shard].addr) else None
    {
      previous := if shard in shards then Some(shards[shard].addr) else None;
      shards := shards[shard := Binding(addr, now)];
    }
  }

  datatype SessEntry = SessEntry(sessionBack: Handle, addrs: ShardedAddrs)

  class SessionTable {
    var tokenToSess: map<Token, SessEntry>
    var addrToToken: map<Addr, Token>

    ghost function Maps(): set<ShardedAddrs>
      reads this
    {
      set t | t in tokenToSess :: tokenToSess[t].addrs
    }

    ghost function State(): Table
      reads this, Maps()
    {
      Table(map t | t in tokenToSess :: Session(tokenToSess[t].sessionBack, tokenToSess[t].addrs.shards), addrToToken)
    }

    /** No two sessions share one map of addresses. */
    ghost predicate Unshared()
      reads this
    {
      forall t, u :: t in tokenToSess && u in tokenToSess && t != u ==> tokenToSess[t].addrs != tokenToSess[u].addrs
    }

    ghost predicate Valid()
      reads this, Maps()
    {
      Unshared() && Honest(State())
    }

    constructor ()
      ensures Valid() && State() == EMPTY && Maps() == {}
    {
      tokenToSess, addrToToken := map[], map[];
    }

    /** Writes through the map of addresses that the session shares with its sender. */
    method Write(token: Token, addr: Addr, shard: Shard, now: Time) returns (previous: Option<Addr>)
      requires Unshared() && token in tokenToSess
      modifies tokenToSess[token].addrs
      ensures var was := old(State().sessions[token]);
        && State() == old(State()).(sessions := old(State()).sessions[token := was.(shards := was.shards[shard := Binding(addr, now)])])
        && previous == if shard in was.shards then Some(was.shards[shard].addr) else None
    {
      previous := tokenToSess[token].addrs.InsertAddr(shard, addr, now);
      assert forall t :: t in tokenToSess && t != token ==> tokenToSess[t].addrs != tokenToSess[token].addrs;
    }

    method Redirect(previous: Option<Addr>, addr: Addr, token: Token)
      modifies this`addrToToken
      ensures State() == old(State()).(index := (old(addrToToken) - (if previous.Some? then {previous.value} else {}))[addr := token])
    {
      if previous.Some? {
        addrToToken := addrToToken - {previous.value};
      }
      addrToToken := addrToToken[addr := token];
    }

    method Rebind(addr: Addr, shard: Shard, token: Token, now: Time) returns (known: bool)
      requires Valid()
      modifies this, Maps()
      ensures Valid() && Maps() == old(Maps()) && tokenToSess == old(tokenToSess)
      ensures known == (token in old(tokenToSess))
      ensures State() == Rebound(old(State()), addr, shard, token, now)
    {
      assert token in tokenToSess <==> token in State().sessions;
      assert addrToToken == State().index;
      hide Honest, State;
      ReboundStaysHonest(State(), addr, shard, token, now);
      if token in tokenToSess {
        var previous := Write(token, addr, shard, now);
        Redirect(previous, addr, token);
        known := true;
      } else {
        known := false;
      }
    }

    method Forget(shards: Shards)
      modifies this`addrToToken
      ensures addrToToken == old(addrToToken) - Addresses(shards)
    {
      var left := shards.Keys;
      ghost var gone: set<Addr> := {};
      while left != {}
        invariant left <= shards.Keys && gone <= Addresses(shards)
        invariant forall s :: s in shards && s !in left ==> shards[s].addr in gone
        invariant addrToToken == old(addrToToken) - gone
        decreases left
      {
        var s: Shard :| s in left;
        left := left - {s};
        addrToToken := addrToToken - {shards[s].addr};
        gone := gone + {shards[s].addr};
      }
    }

    method Delete(token: Token)
      requires Valid()
      modifies this
      ensures Valid() && Maps() <= old(Maps()) && token !in tokenToSess
      ensures State() == Deleted(old(State()), token)
    {
      hide Honest;
      DeletedStaysHonest(State(), token);
      if token in tokenToSess {
        var entry := tokenToSess[token];
        tokenToSess := tokenToSess - {token};
        Forget(entry.addrs.shards);
        assert State().sessions == Deleted(old(State()), token).sessions;
      }
    }

    method Lookup(addr: Addr) returns (back: Option<Handle>)
      ensures back == Found(State(), addr)
    {
      if addr !in addrToToken {
        return None;
      }
      var token := addrToToken[addr];
      if token !in tokenToSess {
        return None;
      }
      back := Some(tokenToSess[token].sessionBack);
    }

    /** Registers a session with a map of addresses of its own; safe when no address still leads
        to the token from before. */
    method NewSess(token: Token, back: Handle, addrs: ShardedAddrs)
      requires Valid() && addrs !in Maps() && addrs.shards != map[]
      modifies this
      ensures Unshared() && Maps() <= old(Maps()) + {addrs} && token in tokenToSess
      ensures State() == Added(old(State()), token, Session(back, addrs.shards))
      ensures Valid() <==> forall a :: a in old(addrToToken) && old(addrToToken)[a] == token ==> Holds(addrs.shards, a)
      ensures token !in old(tokenToSess) ==> Valid()
    {
      hide Honest;
      AddedStaysHonestIff(State(), token, Session(back, addrs.shards));
      tokenToSess := tokenToSess[token := SessEntry(back, addrs)];
      assert tokenToSess[token].addrs == addrs;
      assert forall t :: t in old(tokenToSess) && t != token ==> tokenToSess[t] == old(tokenToSess)[t];
      assert State().sessions == Added(old(State()), token, Session(back, addrs.shards)).sessions;
    }

    /** What the listener does with a client's claim. */
    method Resume(addr: Addr, shard: Shard, token: Token, back: Handle, now: Time)
      requires Valid()
      modifies this, Maps()
      ensures Valid() && fresh(Maps() - old(Maps()))
      ensures State() == Step(old(State()), Event.Resume(addr, shard, token, back, now))
      ensures Found(State(), addr) == Some(State().sessions[token].back)
    {
      hide Honest;
      var known := Rebind(addr, shard, token, now);
      if !known {
        var addrs := new ShardedAddrs(shard, addr, now);
        assert shard in addrs.shards;
        NewSess(token, back, addrs);
        known := Rebind(addr, shard, token, now);
      }
    }
  }
}
