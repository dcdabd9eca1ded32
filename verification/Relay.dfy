/** The relay's registry of sessions and clients: fixed tables with find-or-create and a
    three-way join, against ordered association lists, and the forwarding of voice packets. */
module Relay {
  import opened Words

  const MAX_SESSIONS := 64
  const MAX_CLIENTS := 16
  const IPV4 := 4

  /** Sixteen bytes, of which an IPv4 address uses the first four. */
  type IpBytes = b: seq<Byte> | |b| == 16 witness [0, 0, 0, 0, 0, 0, 0, 0, 0, 0, 0, 0, 0, 0, 0, 0]

  datatype Address = Address(ver: int, port: uint16, ip: IpBytes)

  predicate AddrEqual(a: Address, b: Address) {
    && a.ver == b.ver && a.port == b.port
    && if a.ver == IPV4 then a.ip[..4] == b.ip[..4] else a.ip == b.ip
  }

  datatype Client = Client(inUse: bool, playerId: uint16, addr: Address)

  datatype Session = Session(inUse: bool, sessionId: bv64, clients: seq<Client>)

  // ----- the registry as ordered lists

  datatype Entry = Entry(playerId: uint16, addr: Address)

  datatype Group = Group(sessionId: bv64, entries: seq<Entry>)

  /** The first index satisfying neither or one of two tests; `|s|` when there is none. */
  function FirstPlayer(entries: seq<Entry>, playerId: uint16): (i: nat)
    ensures i <= |entries|
    ensures i < |entries| ==> entries[i].playerId == playerId
    ensures forall k | 0 <= k < i :: entries[k].playerId != playerId
    decreases |entries|
  {
    if entries == [] || entries[0].playerId == playerId then 0 else 1 + FirstPlayer(entries[1..], playerId)
  }

  function FirstAddress(entries: seq<Entry>, addr: Address): (i: nat)
    ensures i <= |entries|
    ensures i < |entries| ==> AddrEqual(entries[i].addr, addr)
    ensures forall k | 0 <= k < i :: !AddrEqual(entries[k].addr, addr)
    decreases |entries|
  {
    if entries == [] || AddrEqual(entries[0].addr, addr) then 0 else 1 + FirstAddress(entries[1..], addr)
  }

  /** Update by id, else rename the first address match, else append if there is room. */
  function JoinEntries(entries: seq<Entry>, playerId: uint16, addr: Address): seq<Entry> {
    var p, a := FirstPlayer(entries, playerId), FirstAddress(entries, addr);
    if p < |entries| then entries[p := Entry(playerId, addr)]
    else if a < |entries| then entries[a := entries[a].(playerId := playerId)]
    else if |entries| < MAX_CLIENTS then entries + [Entry(playerId, addr)]
    else entries
  }

  function FirstSession(groups: seq<Group>, sessionId: bv64): (i: nat)
    ensures i <= |groups|
    ensures i < |groups| ==> groups[i].sessionId == sessionId
    ensures forall k | 0 <= k < i :: groups[k].sessionId != sessionId
    decreases |groups|
  {
    if groups == [] || groups[0].sessionId == sessionId then 0 else 1 + FirstSession(groups[1..], sessionId)
  }

  function JoinGroups(groups: seq<Group>, sessionId: bv64, playerId: uint16, addr: Address): seq<Group> {
    var i := FirstSession(groups, sessionId);
    if i < |groups| then groups[i := Group(sessionId, JoinEntries(groups[i].entries, playerId, addr))]
    else if |groups| < MAX_SESSIONS then groups + [Group(sessionId, JoinEntries([], playerId, addr))]
    else groups
  }

  ghost predicate UniquePlayers(entries: seq<Entry>) {
    forall i, j | 0 <= i < j < |entries| :: entries[i].playerId != entries[j].playerId
  }

  ghost predicate WellFormed(groups: seq<Group>) {
    && |groups| <= MAX_SESSIONS
    && UniqueSessions(groups)
    && (forall i | 0 <= i < |groups| :: |groups[i].entries| <= MAX_CLIENTS && UniquePlayers(groups[i].entries))
  }

  lemma JoinKeepsEntries(entries: seq<Entry>, playerId: uint16, addr: Address)
    requires |entries| <= MAX_CLIENTS && UniquePlayers(entries)
    ensures |JoinEntries(entries, playerId, addr)| <= MAX_CLIENTS
    ensures UniquePlayers(JoinEntries(entries, playerId, addr))
  {
  }

  datatype JoinRequest = JoinRequest(sessionId: bv64, playerId: uint16, addr: Address)

  function JoinOne(groups: seq<Group>, j: JoinRequest): seq<Group> {
    JoinGroups(groups, j.sessionId, j.playerId, j.addr)
  }

  function JoinAll(groups: seq<Group>, joins: seq<JoinRequest>): seq<Group>
    decreases |joins|
  {
    if joins == [] then groups
    else JoinAll(JoinOne(groups, joins[0]), joins[1..])
  }

  ghost predicate UniqueSessions(groups: seq<Group>) {
    forall i, j | 0 <= i < j < |groups| :: groups[i].sessionId != groups[j].sessionId
  }

  lemma JoinKeepsSessions(groups: seq<Group>, sessionId: bv64, playerId: uint16, addr: Address)
    requires UniqueSessions(groups)
    ensures UniqueSessions(JoinGroups(groups, sessionId, playerId, addr))
  {
  }

  /** A join creates the session if it must, then joins within it. */
  lemma JoinInTwoSteps(groups: seq<Group>, created: seq<Group>, sessionId: bv64, playerId: uint16, addr: Address)
    requires FirstSession(groups, sessionId) < |groups| ==> created == groups
    requires FirstSession(groups, sessionId) == |groups| < MAX_SESSIONS ==> created == groups + [Group(sessionId, [])]
    ensures var i := FirstSession(groups, sessionId);
            (i < |groups| || |groups| < MAX_SESSIONS) ==>
              i < |created| && created[i := Group(created[i].sessionId,
                                                  JoinEntries(created[i].entries, playerId, addr))]
                               == JoinGroups(groups, sessionId, playerId, addr)
  {
    if FirstSession(groups, sessionId) == |groups| < MAX_SESSIONS {
      var g := Group(sessionId, JoinEntries([], playerId, addr));
      assert (groups + [Group(sessionId, [])])[|groups| := g] == groups + [g];
    }
  }

  lemma JoinKeepsGroups(groups: seq<Group>, sessionId: bv64, playerId: uint16, addr: Address)
    requires WellFormed(groups)
    ensures WellFormed(JoinGroups(groups, sessionId, playerId, addr))
  {
    var i := FirstSession(groups, sessionId);
    JoinKeepsEntries(if i < |groups| then groups[i].entries else [], playerId, addr);
    JoinKeepsSessions(groups, sessionId, playerId, addr);
  }

  /** Over any joins, session ids stay unique and so do player ids within a session. */
  lemma {:induction false} JoinsKeepUniqueness(groups: seq<Group>, joins: seq<JoinRequest>)
    requires WellFormed(groups)
    ensures WellFormed(JoinAll(groups, joins))
    decreases |joins|
  {
    if joins != [] {
      var j := joins[0];
      JoinKeepsGroups(groups, j.sessionId, j.playerId, j.addr);
      JoinsKeepUniqueness(JoinOne(groups, j), joins[1..]);
    }
  }

  ghost predicate Registered(entries: seq<Entry>, playerId: uint16, addr: Address) {
    exists i :: 0 <= i < |entries| && entries[i].playerId == playerId && AddrEqual(entries[i].addr, addr)
  }

  /** After a join the player is registered at its address, unless the session is full and
      knows neither the player nor the address: then nothing changes. */
  lemma JoinRegisters(entries: seq<Entry>, playerId: uint16, addr: Address)
    requires |entries| <= MAX_CLIENTS
    ensures Registered(JoinEntries(entries, playerId, addr), playerId, addr) <==>
            !(|entries| == MAX_CLIENTS && FirstPlayer(entries, playerId) == |entries|
              && FirstAddress(entries, addr) == |entries|)
  {
    var p, a := FirstPlayer(entries, playerId), FirstAddress(entries, addr);
    var after := JoinEntries(entries, playerId, addr);
    if p < |entries| {
      assert after[p] == Entry(playerId, addr);
    } else if a < |entries| {
      assert after[a].playerId == playerId && AddrEqual(after[a].addr, addr);
    } else if |entries| < MAX_CLIENTS {
      assert after[|entries|] == Entry(playerId, addr);
    }
  }

  /** Address comparison: version, port and the bytes the version uses, 4 for version 4. */
  lemma AddressesAreEqual(a: Address, b: Address)
    ensures AddrEqual(a, b) <==>
            && a.ver == b.ver && a.port == b.port
            && forall i | 0 <= i < (if a.ver == 4 then 4 else 16) :: a.ip[i] == b.ip[i]
  {
    if a.ver == IPV4 {
      assert a.ip[..4] == b.ip[..4] <==> forall i | 0 <= i < 4 :: a.ip[..4][i] == b.ip[..4][i];
    }
  }

  /** The entry a join touches: the player's, else the first at the address. */
  ghost predicate Touches(entries: seq<Entry>, playerId: uint16, addr: Address, i: nat) {
    && i < |entries|
    && if exists k | 0 <= k < |entries| :: entries[k].playerId == playerId then entries[i].playerId == playerId
       else AddrEqual(entries[i].addr, addr) && forall k | 0 <= k < i :: !AddrEqual(entries[k].addr, addr)
  }

  /** All other entries stay as and where they are. The one touched ends up with the player;
      its address becomes the player's if the entry was the player's already, and stays if
      not. An entry is added exactly when none is touched and there are fewer than 16. */
  lemma JoinLeavesOthers(entries: seq<Entry>, playerId: uint16, addr: Address)
    requires |entries| <= 16 && UniquePlayers(entries)
    ensures var after := JoinEntries(entries, playerId, addr);
            && |entries| <= |after|
            && (forall i | 0 <= i < |entries| ::
                  if !Touches(entries, playerId, addr, i) then after[i] == entries[i]
                  else if entries[i].playerId == playerId then after[i] == Entry(playerId, addr)
                  else after[i] == Entry(playerId, entries[i].addr))
            && (|after| > |entries| <==> |entries| < 16 && forall i :: !Touches(entries, playerId, addr, i))
            && (|after| > |entries| ==> after == entries + [Entry(playerId, addr)])
  {
    var p, a := FirstPlayer(entries, playerId), FirstAddress(entries, addr);
    if p < |entries| {
      assert Touches(entries, playerId, addr, p);
    } else if a < |entries| {
      assert Touches(entries, playerId, addr, a);
    }
  }

  /** A join leaves all other sessions as they are. */
  lemma JoinLeavesOtherSessions(groups: seq<Group>, j: JoinRequest)
    requires UniqueSessions(groups) && |groups| <= 64
    ensures var after := JoinOne(groups, j);
            && |groups| <= |after|
            && (forall i | 0 <= i < |groups| ::
                  && after[i].sessionId == groups[i].sessionId
                  && after[i].entries ==
                     if groups[i].sessionId == j.sessionId then JoinEntries(groups[i].entries, j.playerId, j.addr)
                     else groups[i].entries)
            && (|after| > |groups| <==>
                  |groups| < 64 && forall i | 0 <= i < |groups| :: groups[i].sessionId != j.sessionId)
            && (|after| > |groups| ==> after == groups + [Group(j.sessionId, [Entry(j.playerId, j.addr)])])
  {
    var i := FirstSession(groups, j.sessionId);
    if i < |groups| {
      assert forall k | 0 <= k < |groups| && k != i :: groups[k].sessionId != j.sessionId;
    } else {
      assert JoinEntries([], j.playerId, j.addr) == [Entry(j.playerId, j.addr)];
    }
  }

  // ----- addresses within a session

  ghost predicate AddressesApart(entries: seq<Entry>) {
    forall i, j | 0 <= i < j < |entries| :: !AddrEqual(entries[i].addr, entries[j].addr)
  }

  /** A known player moves to an address that another entry holds. */
  predicate MovesOnto(entries: seq<Entry>, playerId: uint16, addr: Address) {
    var p := FirstPlayer(entries, playerId);
    p < |entries| && exists k | 0 <= k < |entries| :: k != p && AddrEqual(entries[k].addr, addr)
  }

  /** A join keeps addresses apart exactly when the player is not one that moves onto
      another's address. */
  lemma JoinKeepsApartExact(entries: seq<Entry>, playerId: uint16, addr: Address)
    requires AddressesApart(entries)
    ensures AddressesApart(JoinEntries(entries, playerId, addr)) <==> !MovesOnto(entries, playerId, addr)
  {
    var p, a := FirstPlayer(entries, playerId), FirstAddress(entries, addr);
    var after := JoinEntries(entries, playerId, addr);
    if p < |entries| {
      MovedApartExact(entries, p, Entry(playerId, addr));
    } else if a < |entries| {
      assert forall i | 0 <= i < |entries| :: after[i].addr == entries[i].addr;
    } else {
      assert forall i | 0 <= i < |entries| :: after[i] == entries[i];
    }
  }

  lemma MovedApartExact(entries: seq<Entry>, p: nat, e: Entry)
    requires AddressesApart(entries) && p < |entries|
    ensures AddressesApart(entries[p := e]) <==>
            !exists k | 0 <= k < |entries| :: k != p && AddrEqual(entries[k].addr, e.addr)
  {
    var after := entries[p := e];
    if k :| 0 <= k < |entries| && k != p && AddrEqual(entries[k].addr, e.addr) {
      AddressEqualityIsEquivalence(entries[k].addr, e.addr, e.addr);
      assert after[k].addr == entries[k].addr && after[p].addr == e.addr;
      assert !AddressesApart(after);
    } else {
      forall i, j | 0 <= i < j < |after|
        ensures !AddrEqual(after[i].addr, after[j].addr)
      {
        AddressEqualityIsEquivalence(after[i].addr, after[j].addr, e.addr);
      }
    }
  }

  ghost predicate AllApart(groups: seq<Group>) {
    forall i | 0 <= i < |groups| :: AddressesApart(groups[i].entries)
  }

  /** The guard of the update by player id meets another's address. */
  predicate JoinMovesOnto(groups: seq<Group>, j: JoinRequest) {
    var i := FirstSession(groups, j.sessionId);
    i < |groups| && MovesOnto(groups[i].entries, j.playerId, j.addr)
  }

  lemma JoinKeepsAllApartExact(groups: seq<Group>, j: JoinRequest)
    requires AllApart(groups)
    ensures AllApart(JoinOne(groups, j)) <==> !JoinMovesOnto(groups, j)
  {
    var i := FirstSession(groups, j.sessionId);
    var after := JoinOne(groups, j);
    if i < |groups| {
      JoinKeepsApartExact(groups[i].entries, j.playerId, j.addr);
      assert after[i].entries == JoinEntries(groups[i].entries, j.playerId, j.addr);
      assert forall k | 0 <= k < |groups| && k != i :: after[k] == groups[k];
    } else {
      JoinKeepsApartExact([], j.playerId, j.addr);
      assert forall k | 0 <= k < |groups| :: after[k] == groups[k];
    }
  }

  /** Addresses are unique within every session after each of the joins. */
  ghost predicate StayApart(groups: seq<Group>, joins: seq<JoinRequest>)
    decreases |joins|
  {
    AllApart(groups) && (joins != [] ==> StayApart(JoinOne(groups, joins[0]), joins[1..]))
  }

  /** No join moves a known player onto another's address. */
  predicate NoneMovesOnto(groups: seq<Group>, joins: seq<JoinRequest>)
    decreases |joins|
  {
    joins != [] ==> !JoinMovesOnto(groups, joins[0]) && NoneMovesOnto(JoinOne(groups, joins[0]), joins[1..])
  }

  /** Over any joins, addresses stay unique within their sessions if and only if none of them
      moves a known player onto another's address. */
  lemma {:induction false} AddressesUniqueExact(groups: seq<Group>, joins: seq<JoinRequest>)
    requires AllApart(groups)
    ensures StayApart(groups, joins) <==> NoneMovesOnto(groups, joins)
    decreases |joins|
  {
    if joins != [] {
      JoinKeepsAllApartExact(groups, joins[0]);
      if !JoinMovesOnto(groups, joins[0]) {
        AddressesUniqueExact(JoinOne(groups, joins[0]), joins[1..]);
      }
    }
  }

  /** So addresses need not be unique: three joins of an empty registry leave two players at
      one address. */
  lemma AddressesMayCollide(sessionId: bv64, a: Address, b: Address)
    requires !AddrEqual(a, b)
    ensures JoinAll([], [JoinRequest(sessionId, 1, a), JoinRequest(sessionId, 2, b), JoinRequest(sessionId, 2, a)]) ==
            [Group(sessionId, [Entry(1, a), Entry(2, a)])]
    ensures !AddressesApart([Entry(1, a), Entry(2, a)])
  {
    var r1, r2, r3 := JoinRequest(sessionId, 1, a), JoinRequest(sessionId, 2, b), JoinRequest(sessionId, 2, a);
    var g1, g2 := [Group(sessionId, [Entry(1, a)])], [Group(sessionId, [Entry(1, a), Entry(2, b)])];
    FirstTwoJoins(sessionId, a, b);
    ThirdJoin(sessionId, a, b);
    assert [r1, r2, r3][1..] == [r2, r3] && [r2, r3][1..] == [r3] && [r3][1..] == [];
    assert JoinAll(g2, [r3]) == JoinAll(JoinOne(g2, r3), []);
    assert JoinAll(g1, [r2, r3]) == JoinAll(g2, [r3]);
    AddressEqualityIsEquivalence(a, a, a);
    var collided := [Entry(1, a), Entry(2, a)];
    assert AddrEqual(collided[0].addr, collided[1].addr);
  }

  lemma ThirdJoin(sessionId: bv64, a: Address, b: Address)
    ensures JoinOne([Group(sessionId, [Entry(1, a), Entry(2, b)])], JoinRequest(sessionId, 2, a)) ==
            [Group(sessionId, [Entry(1, a), Entry(2, a)])]
  {
    var two := [Entry(1, a), Entry(2, b)];
    assert FirstPlayer(two, 2) == 1;
    assert JoinEntries(two, 2, a) == [Entry(1, a), Entry(2, a)];
  }

  lemma FirstTwoJoins(sessionId: bv64, a: Address, b: Address)
    requires !AddrEqual(a, b)
    ensures JoinOne([], JoinRequest(sessionId, 1, a)) == [Group(sessionId, [Entry(1, a)])]
    ensures JoinOne([Group(sessionId, [Entry(1, a)])], JoinRequest(sessionId, 2, b)) ==
            [Group(sessionId, [Entry(1, a), Entry(2, b)])]
  {
    var one := [Entry(1, a)];
    assert FirstPlayer(one, 2) == 1 && FirstAddress(one, b) == 1;
    assert JoinEntries([], 1, a) == one && JoinEntries(one, 2, b) == [Entry(1, a), Entry(2, b)];
  }

  // ----- forwarding

  function Recipients(entries: seq<Entry>, from: Address): seq<Address> {
    if entries == [] then []
    else
      var k := |entries| - 1;
      Recipients(entries[..k], from) + if AddrEqual(entries[k].addr, from) then [] else [entries[k].addr]
  }

  /** Where in the sends entry `i` is served, when it is. */
  function Place(entries: seq<Entry>, from: Address, i: nat): nat
    requires i < |entries|
  {
    |Recipients(entries[..i], from)|
  }

  lemma PlaceInPrefix(entries: seq<Entry>, from: Address, i: nat)
    requires i + 1 < |entries|
    ensures Place(entries[..|entries| - 1], from, i) == Place(entries, from, i)
  {
    assert entries[..|entries| - 1][..i] == entries[..i];
  }

  /** Every entry whose address differs from the sender's is sent to, at its own place in the
      sends. */
  lemma {:induction false} ForwardReachesAll(entries: seq<Entry>, from: Address, i: nat)
    requires i < |entries| && !AddrEqual(entries[i].addr, from)
    ensures Place(entries, from, i) < |Recipients(entries, from)|
    ensures Recipients(entries, from)[Place(entries, from, i)] == entries[i].addr
    decreases |entries|
  {
    if i < |entries| - 1 {
      ForwardReachesAll(entries[..|entries| - 1], from, i);
      PlaceInPrefix(entries, from, i);
    }
  }

  /** Different entries have different places, in table order. */
  lemma {:induction false} PlacesAreDistinct(entries: seq<Entry>, from: Address, i: nat, j: nat)
    requires i < j < |entries| && !AddrEqual(entries[i].addr, from)
    ensures Place(entries, from, i) < Place(entries, from, j)
    decreases j
  {
    assert entries[..j][..i] == entries[..i];
    ForwardReachesAll(entries[..j], from, i);
  }

  /** There is no other send, and none goes to the sender's address. */
  lemma {:induction false} ForwardSendsNothingElse(entries: seq<Entry>, from: Address, r: nat) returns (i: nat)
    requires r < |Recipients(entries, from)|
    ensures i < |entries| && !AddrEqual(entries[i].addr, from) && Place(entries, from, i) == r
    ensures !AddrEqual(Recipients(entries, from)[r], from)
    decreases |entries|
  {
    var k := |entries| - 1;
    if r < |Recipients(entries[..k], from)| {
      i := ForwardSendsNothingElse(entries[..k], from, r);
      PlaceInPrefix(entries, from, i);
    } else {
      i := k;
    }
  }

  lemma AddressEqualityIsEquivalence(a: Address, b: Address, c: Address)
    ensures AddrEqual(a, a)
    ensures AddrEqual(a, b) == AddrEqual(b, a)
    ensures AddrEqual(a, b) && AddrEqual(b, c) ==> AddrEqual(a, c)
  {
  }

  // ----- the tables

  const NO_ADDRESS := Address(0, 0, [0, 0, 0, 0, 0, 0, 0, 0, 0, 0, 0, 0, 0, 0, 0, 0])
  const NO_CLIENT := Client(false, 0, NO_ADDRESS)

  /** In-use clients come first. */
  ghost predicate ClientPrefix(clients: seq<Client>, n: nat) {
    && |clients| == MAX_CLIENTS && n <= MAX_CLIENTS
    && (forall i | 0 <= i < n :: clients[i].inUse)
    && (forall i | n <= i < MAX_CLIENTS :: !clients[i].inUse)
  }

  function EntryOf(c: Client): Entry {
    Entry(c.playerId, c.addr)
  }

  /** The table represents the list: its first slots hold the entries, the others are free. */
  ghost predicate Represents(clients: seq<Client>, entries: seq<Entry>) {
    ClientPrefix(clients, |entries|) && forall i | 0 <= i < |entries| :: EntryOf(clients[i]) == entries[i]
  }

  ghost predicate SessionRepresents(s: Session, g: Group) {
    s.inUse && s.sessionId == g.sessionId && Represents(s.clients, g.entries)
  }

  /** The table of sessions represents the list of groups. */
  ghost predicate SessionsRepresent(sessions: seq<Session>, groups: seq<Group>) {
    && |sessions| == MAX_SESSIONS && |groups| <= MAX_SESSIONS
    && (forall i | 0 <= i < |groups| :: SessionRepresents(sessions[i], groups[i]))
    && (forall i | |groups| <= i < MAX_SESSIONS :: !sessions[i].inUse)
  }

  lemma SessionAdded(sessions: seq<Session>, groups: seq<Group>, s: Session, g: Group)
    requires SessionsRepresent(sessions, groups) && |groups| < MAX_SESSIONS && SessionRepresents(s, g)
    ensures SessionsRepresent(sessions[|groups| := s], groups + [g])
  {
  }

  lemma SessionChanged(sessions: seq<Session>, groups: seq<Group>, i: nat, s: Session, g: Group)
    requires SessionsRepresent(sessions, groups) && i < |groups| && SessionRepresents(s, g)
    ensures SessionsRepresent(sessions[i := s], groups[i := g])
  {
  }

  lemma EmptySessionRepresents(sessionId: bv64)
    ensures SessionRepresents(Session(true, sessionId, NoClients()), Group(sessionId, []))
  {
  }

  function NoClients(): (r: seq<Client>)
    ensures |r| == MAX_CLIENTS && forall i | 0 <= i < MAX_CLIENTS :: r[i] == NO_CLIENT
  {
    seq(MAX_CLIENTS, _ => NO_CLIENT)
  }

  class RelayState {
    const sessions: array<Session>
    ghost var groups: seq<Group>

    ghost predicate Valid()
      reads this, sessions
    {
      SessionsRepresent(sessions[..], groups) && WellFormed(groups)
    }

    constructor ()
      ensures Valid() && fresh(sessions) && groups == []
    {
      sessions := new Session[MAX_SESSIONS](_ => Session(false, 0, NoClients()));
      groups := [];
    }

    /** The first session in use with this id. */
    method FindSession(sessionId: bv64) returns (found: Option<nat>)
      requires Valid()
      ensures var i := FirstSession(groups, sessionId);
              found == if i < |groups| then Some(i) else None
    {
      for i := 0 to MAX_SESSIONS
        invariant forall k | 0 <= k < i && k < |groups| :: groups[k].sessionId != sessionId
      {
        assert sessions[..][i] == sessions[i];
        assert i < |groups| ==> SessionRepresents(sessions[..][i], groups[i]);
        if sessions[i].inUse && sessions[i].sessionId == sessionId {
          return Some(i);
        }
      }
      return None;
    }

    method FindOrCreateSession(sessionId: bv64) returns (found: Option<nat>)
      requires Valid()
      modifies this, sessions
      ensures SessionsRepresent(sessions[..], groups)
      ensures var i := FirstSession(old(groups), sessionId);
              && (i < |old(groups)| ==> found == Some(i) && groups == old(groups))
              && (i == |old(groups)| < MAX_SESSIONS ==>
                  found == Some(i) && groups == old(groups) + [Group(sessionId, [])])
              && (i == |old(groups)| == MAX_SESSIONS ==> found == None && groups == old(groups))
    {
      found := FindSession(sessionId);
      if found != None {
        return;
      }
      for i := 0 to MAX_SESSIONS
        invariant i <= |groups|
        invariant groups == old(groups) && sessions[..] == old(sessions[..])
      {
        assert sessions[..][i] == sessions[i];
        assert i < |groups| ==> SessionRepresents(sessions[..][i], groups[i]);
        if !sessions[i].inUse {
          EmptySessionRepresents(sessionId);
          SessionAdded(sessions[..], groups, Session(true, sessionId, NoClients()), Group(sessionId, []));
          ghost var after := sessions[..][i := Session(true, sessionId, NoClients())];
          sessions[i] := Session(true, sessionId, NoClients());
          groups := groups + [Group(sessionId, [])];
          assert sessions[..] == after;
          return Some(i);
        }
      }
      return None;
    }

    /** The session's clients after a join: update by player id, else by address, else insert. */
    method JoinClients(clients: seq<Client>, ghost entries: seq<Entry>, playerId: uint16, from: Address)
      returns (joined: seq<Client>)
      requires Represents(clients, entries)
      ensures Represents(joined, JoinEntries(entries, playerId, from))
    {
      for i := 0 to MAX_CLIENTS
        invariant forall k | 0 <= k < i && k < |entries| :: entries[k].playerId != playerId
      {
        assert i < |entries| ==> EntryOf(clients[i]) == entries[i];
        if clients[i].inUse && clients[i].playerId == playerId {
          assert i == FirstPlayer(entries, playerId);
          return clients[i := clients[i].(addr := from)];
        }
      }
      for i := 0 to MAX_CLIENTS
        invariant forall k | 0 <= k < i && k < |entries| :: !AddrEqual(entries[k].addr, from)
      {
        assert i < |entries| ==> EntryOf(clients[i]) == entries[i];
        if clients[i].inUse && AddrEqual(clients[i].addr, from) {
          assert i == FirstAddress(entries, from);
          return clients[i := clients[i].(playerId := playerId)];
        }
      }
      for i := 0 to MAX_CLIENTS
        invariant i <= |entries|
      {
        if !clients[i].inUse {
          return clients[i := Client(true, playerId, from)];
        }
      }
      return clients;
    }

    method Join(sessionId: bv64, playerId: uint16, from: Address)
      requires Valid()
      modifies this, sessions
      ensures Valid() && groups == JoinGroups(old(groups), sessionId, playerId, from)
    {
      JoinKeepsGroups(groups, sessionId, playerId, from);
      ghost var was := groups;
      var found := FindOrCreateSession(sessionId);
      JoinInTwoSteps(was, groups, sessionId, playerId, from);
      match found
      case None =>
      case Some(i) =>
        JoinSession(i, playerId, from);
    }

    /** The join within a session that is in the table. */
    method JoinSession(i: nat, playerId: uint16, from: Address)
      requires SessionsRepresent(sessions[..], groups) && i < |groups|
      modifies this, sessions
      ensures SessionsRepresent(sessions[..], groups)
      ensures groups == old(groups[i := Group(groups[i].sessionId, JoinEntries(groups[i].entries, playerId, from))])
    {
      assert sessions[..][i] == sessions[i] && SessionRepresents(sessions[..][i], groups[i]);
      var joined := JoinClients(sessions[i].clients, groups[i].entries, playerId, from);
      ghost var g := Group(groups[i].sessionId, JoinEntries(groups[i].entries, playerId, from));
      var s := sessions[i].(clients := joined);
      SessionChanged(sessions[..], groups, i, s, g);
      ghost var after := sessions[..][i := s];
      sessions[i] := s;
      groups := groups[i := g];
      assert sessions[..] == after;
    }

    /** The addresses the packet is sent to, in order. */
    method ForwardVoice(sessionId: bv64, from: Address) returns (sent: seq<Address>)
      requires Valid()
      ensures var i := FirstSession(groups, sessionId);
              sent == if i < |groups| then Recipients(groups[i].entries, from) else []
    {
      sent := [];
      var found := FindSession(sessionId);
      match found
      case None =>
      case Some(s) =>
        assert sessions[..][s] == sessions[s] && SessionRepresents(sessions[..][s], groups[s]);
        sent := ForwardTo(sessions[s].clients, groups[s].entries, from);
    }

    method ForwardTo(clients: seq<Client>, ghost entries: seq<Entry>, from: Address) returns (sent: seq<Address>)
      requires Represents(clients, entries)
      ensures sent == Recipients(entries, from)
    {
      sent := [];
      for i := 0 to MAX_CLIENTS
        invariant sent == Recipients(entries[..if i < |entries| then i else |entries|], from)
      {
        if i < |entries| {
          assert entries[..i + 1][..i] == entries[..i] && EntryOf(clients[i]) == entries[i];
        }
        if !clients[i].inUse || AddrEqual(clients[i].addr, from) {
          continue;
        }
        sent := sent + [clients[i].addr];
      }
      assert entries[..|entries|] == entries;
    }
  }
}
