/**
 Erasing an account: device and user rows rewritten in place, everything else that names the
 person deleted statement by statement, under foreign keys that restrict deletes.
 */
module Erasure {
  import opened Text

  type Id = nat

  datatype AccountState = PendingActivation | ActiveAccount | Suspended | Disabled

  datatype User = User(
    email: string, emailNormalized: string, username: Option<string>, usernameNormalized: Option<string>,
    passwordHash: Option<string>, state: AccountState, activatedAt: Option<int>, disabledAt: Option<int>)

  datatype Device = Device(
    user: Id, name: string, revoked: bool, revokedAt: Option<int>,
    hardwareHash: Option<string>, hardwareKeyVersion: Option<int>, updatedAt: int)

  datatype ClientState = Requested | Applying | Active | Revoking | Revoked

  /** A WireGuard peer or an Xray client. */
  datatype Client = Client(device: Id, state: ClientState)
  datatype Session = Session(user: Id, device: Id)
  datatype Token = Token(session: Id, replacedBy: Option<Id>)
  datatype Activation = Activation(request: Id, user: Id)
  datatype Request = Request(user: Option<Id>, emailNormalized: string)
  datatype RequestEvent = RequestEvent(request: Id)
  datatype Delivery = Delivery(recipientLower: string, subjectIsUser: bool, subject: Id)

  /** Rows that only point at their user: password resets, permissions, server assignments. */
  datatype Tables = Tables(
    users: map<Id, User>, devices: map<Id, Device>, clients: map<Id, Client>, sessions: map<Id, Session>,
    tokens: map<Id, Token>, activations: map<Id, Activation>, resets: map<Id, Id>, requests: map<Id, Request>,
    events: map<Id, RequestEvent>, deliveries: map<Id, Delivery>, permissions: map<Id, Id>, assignments: map<Id, Id>)

  // ---------------------------------------------------------------- constraints

  /** A token's session is there, and so is the token that replaced it, in the same session. */
  ghost predicate TokenKeys(t: Tables)
  {
    forall k :: k in t.tokens ==>
      t.tokens[k].session in t.sessions
      && (t.tokens[k].replacedBy.Some? ==>
            && t.tokens[k].replacedBy.value in t.tokens
            && t.tokens[t.tokens[k].replacedBy.value].session == t.tokens[k].session)
  }

  ghost predicate SessionKeys(t: Tables)
  {
    forall k :: k in t.sessions ==>
      t.sessions[k].device in t.devices && t.devices[t.sessions[k].device].user == t.sessions[k].user
  }

  ghost predicate RequestKeys(t: Tables)
  {
    && (forall k :: k in t.requests && t.requests[k].user.Some? ==> t.requests[k].user.value in t.users)
    && (forall k :: k in t.events ==> t.events[k].request in t.requests)
    && (forall k :: k in t.activations ==>
          t.activations[k].request in t.requests
          && t.requests[t.activations[k].request].user == Some(t.activations[k].user))
  }

  ghost predicate UserKeys(t: Tables)
  {
    && (forall k :: k in t.devices ==> t.devices[k].user in t.users)
    && (forall k :: k in t.clients ==> t.clients[k].device in t.devices)
    && t.resets.Values <= t.users.Keys && t.permissions.Values <= t.users.Keys && t.assignments.Values <= t.users.Keys
  }

  ghost predicate ForeignKeys(t: Tables)
  {
    TokenKeys(t) && SessionKeys(t) && RequestKeys(t) && UserKeys(t)
  }

  predicate UserChecks(u: User)
  {
    && (u.state.ActiveAccount? ==> u.passwordHash.Some? && u.activatedAt.Some?)
    && (u.username.None? <==> u.usernameNormalized.None?)
  }

  ghost predicate Checks(t: Tables)
  {
    && (forall k :: k in t.users ==> UserChecks(t.users[k]))
    && (forall k :: k in t.devices ==> (t.devices[k].revoked <==> t.devices[k].revokedAt.Some?))
  }

  ghost predicate UniqueEmails(t: Tables)
  {
    forall j, k :: j in t.users && k in t.users && t.users[j].emailNormalized == t.users[k].emailNormalized ==> j == k
  }

  // ---------------------------------------------------------------- what is removed

  function OwnSessions(sessions: map<Id, Session>, user: Id): set<Id>
  {
    set k | k in sessions && sessions[k].user == user
  }

  function OwnTokens(tokens: map<Id, Token>, sessions: map<Id, Session>, user: Id): set<Id>
  {
    set k | k in tokens && tokens[k].session in OwnSessions(sessions, user)
  }

  function OwnActivations(activations: map<Id, Activation>, user: Id): set<Id>
  {
    set k | k in activations && activations[k].user == user
  }

  function OwnRequests(requests: map<Id, Request>, user: Id, address: string): set<Id>
  {
    set k | k in requests && (requests[k].user == Some(user) || requests[k].emailNormalized == address)
  }

  function OwnEvents(events: map<Id, RequestEvent>, requests: map<Id, Request>, user: Id, address: string): set<Id>
  {
    set k | k in events && events[k].request in OwnRequests(requests, user, address)
  }

  function OwnDeliveries(deliveries: map<Id, Delivery>, user: Id, address: string): set<Id>
  {
    set k | k in deliveries
      && (deliveries[k].recipientLower == address || (deliveries[k].subjectIsUser && deliveries[k].subject == user))
  }

  function OwnRows(table: map<Id, Id>, user: Id): set<Id>
  {
    set k | k in table && table[k] == user
  }

  function OwnDevices(devices: map<Id, Device>, user: Id): set<Id>
  {
    set k | k in devices && devices[k].user == user
  }

  function ErasedDevice(d: Device, now: int): Device
  {
    Device(d.user, "deleted", true, if d.revoked then d.revokedAt else Some(now), None, None, now)
  }

  function ErasedUser(u: User, now: int, placeholder: string): User
  {
    User(placeholder, placeholder, None, None, None, Disabled, u.activatedAt, Some(now))
  }

  function RevokedClient(c: Client): Client
  {
    if c.state.Requested? || c.state.Applying? || c.state.Active? then c.(state := Revoking) else c
  }

  function ErasedDevices(t: Tables, done: set<Id>, now: int): map<Id, Device>
  {
    map k | k in t.devices :: if k in done then ErasedDevice(t.devices[k], now) else t.devices[k]
  }

  function RevokedClients(t: Tables, done: set<Id>): map<Id, Client>
  {
    map k | k in t.clients :: if t.clients[k].device in done then RevokedClient(t.clients[k]) else t.clients[k]
  }

  /** The tables after the account is erased, in one piece. */
  function Erased(t: Tables, user: Id, now: int, placeholder: string): Tables
    requires user in t.users
  {
    var address := t.users[user].emailNormalized;
    var mine := OwnDevices(t.devices, user);
    Tables(
      t.users[user := ErasedUser(t.users[user], now, placeholder)],
      ErasedDevices(t, mine, now), RevokedClients(t, mine),
      t.sessions - OwnSessions(t.sessions, user), t.tokens - OwnTokens(t.tokens, t.sessions, user),
      t.activations - OwnActivations(t.activations, user),
      t.resets - OwnRows(t.resets, user), t.requests - OwnRequests(t.requests, user, address),
      t.events - OwnEvents(t.events, t.requests, user, address),
      t.deliveries - OwnDeliveries(t.deliveries, user, address),
      t.permissions - OwnRows(t.permissions, user), t.assignments - OwnRows(t.assignments, user))
  }

  // ---------------------------------------------------------------- row by row

  /** A device of the account is revoked, when it was not already, and forgets what it was; no other changes. */
  ghost predicate DevicesErased(before: map<Id, Device>, after: map<Id, Device>, user: Id, now: int)
  {
    && after.Keys == before.Keys
    && forall k :: k in before ==>
         if before[k].user != user then after[k] == before[k]
         else
           && after[k].user == user && after[k].revoked && after[k].name == "deleted"
           && after[k].revokedAt == (if before[k].revoked then before[k].revokedAt else Some(now))
           && after[k].hardwareHash == None && after[k].hardwareKeyVersion == None && after[k].updatedAt == now
  }

  /** A credential of the account's devices is on its way out or out; no other changes. */
  ghost predicate ClientsRevoked(t: Tables, after: map<Id, Client>, user: Id)
  {
    && after.Keys == t.clients.Keys
    && forall k :: k in t.clients ==>
         var c := t.clients[k];
         && after[k].device == c.device
         && after[k].state ==
              (if c.device in t.devices && t.devices[c.device].user == user && c.state in {Requested, Applying, Active}
               then Revoking else c.state)
  }

  ghost predicate UserErased(before: map<Id, User>, after: map<Id, User>, user: Id, now: int, placeholder: string)
  {
    && after.Keys == before.Keys && user in after
    && (forall k :: k in before && k != user ==> after[k] == before[k])
    && after[user].email == placeholder && after[user].emailNormalized == placeholder
    && after[user].username == None && after[user].usernameNormalized == None && after[user].passwordHash == None
    && after[user].state == Disabled && after[user].disabledAt == Some(now)
    && after[user].activatedAt == before[user].activatedAt
  }

  /** The rows of `after` are those of `before` that are not `gone`, as they were. */
  ghost predicate Without<Row(!new)>(before: map<Id, Row>, after: map<Id, Row>, gone: Row -> bool)
  {
    && (forall k :: k in after <==> k in before && !gone(before[k]))
    && forall k :: k in after ==> after[k] == before[k]
  }

  ghost predicate SignInsDeleted(t: Tables, u: Tables, user: Id)
  {
    && Without(t.sessions, u.sessions, (s: Session) => s.user == user)
    && Without(t.tokens, u.tokens, (x: Token) => x.session in t.sessions && t.sessions[x.session].user == user)
    && Without(t.activations, u.activations, (a: Activation) => a.user == user)
  }

  ghost predicate MailDeleted(t: Tables, u: Tables, user: Id, address: string)
  {
    && Without(t.requests, u.requests, (r: Request) => r.user == Some(user) || r.emailNormalized == address)
    && Without(t.events, u.events, (e: RequestEvent) => e.request in t.requests &&
         (t.requests[e.request].user == Some(user) || t.requests[e.request].emailNormalized == address))
    && Without(t.deliveries, u.deliveries, (d: Delivery) =>
         d.recipientLower == address || (d.subjectIsUser && d.subject == user))
  }

  ghost predicate GrantsDeleted(t: Tables, u: Tables, user: Id)
  {
    && Without(t.resets, u.resets, (owner: Id) => owner == user)
    && Without(t.permissions, u.permissions, (owner: Id) => owner == user)
    && Without(t.assignments, u.assignments, (owner: Id) => owner == user)
  }

  lemma SignInsRowByRow(t: Tables, u: Tables, user: Id)
    requires u.sessions == t.sessions - OwnSessions(t.sessions, user)
    requires u.tokens == t.tokens - OwnTokens(t.tokens, t.sessions, user)
    requires u.activations == t.activations - OwnActivations(t.activations, user)
    ensures SignInsDeleted(t, u, user)
  {
  }

  lemma MailRowByRow(t: Tables, u: Tables, user: Id, address: string)
    requires u.requests == t.requests - OwnRequests(t.requests, user, address)
    requires u.events == t.events - OwnEvents(t.events, t.requests, user, address)
    requires u.deliveries == t.deliveries - OwnDeliveries(t.deliveries, user, address)
    ensures MailDeleted(t, u, user, address)
  {
  }

  lemma GrantsRowByRow(t: Tables, u: Tables, user: Id)
    requires u.resets == t.resets - OwnRows(t.resets, user)
    requires u.permissions == t.permissions - OwnRows(t.permissions, user)
    requires u.assignments == t.assignments - OwnRows(t.assignments, user)
    ensures GrantsDeleted(t, u, user)
  {
  }

  lemma DevicesRowByRow(t: Tables, user: Id, now: int)
    ensures DevicesErased(t.devices, ErasedDevices(t, OwnDevices(t.devices, user), now), user, now)
    ensures ClientsRevoked(t, RevokedClients(t, OwnDevices(t.devices, user)), user)
  {
  }

  lemma UserRowByRow(before: map<Id, User>, user: Id, now: int, placeholder: string)
    requires user in before
    ensures UserErased(before, before[user := ErasedUser(before[user], now, placeholder)], user, now, placeholder)
  {
  }

  /** What erasing does to every row of every table. */
  ghost predicate AccountErased(t: Tables, u: Tables, user: Id, now: int, placeholder: string)
  {
    && user in t.users && UserErased(t.users, u.users, user, now, placeholder)
    && DevicesErased(t.devices, u.devices, user, now) && ClientsRevoked(t, u.clients, user)
    && SignInsDeleted(t, u, user) && MailDeleted(t, u, user, t.users[user].emailNormalized)
    && GrantsDeleted(t, u, user)
  }

  lemma RowByRow(t: Tables, user: Id, now: int, placeholder: string)
    requires user in t.users
    ensures AccountErased(t, Erased(t, user, now, placeholder), user, now, placeholder)
  {
    var u := Erased(t, user, now, placeholder);
    DevicesRowByRow(t, user, now);
    UserRowByRow(t.users, user, now, placeholder);
    SignInsRowByRow(t, u, user);
    MailRowByRow(t, u, user, t.users[user].emailNormalized);
    GrantsRowByRow(t, u, user);
  }

  // ---------------------------------------------------------------- RESTRICT, statement by statement

  /** No token left behind is replaced by one of `gone`. */
  predicate TokensDeletable(tokens: map<Id, Token>, gone: set<Id>)
  {
    forall k :: k in tokens && k !in gone && tokens[k].replacedBy.Some? ==> tokens[k].replacedBy.value !in gone
  }

  predicate SessionsDeletable(tokens: map<Id, Token>, gone: set<Id>)
  {
    forall k :: k in tokens ==> tokens[k].session !in gone
  }

  predicate RequestsDeletable(events: map<Id, RequestEvent>, activations: map<Id, Activation>, gone: set<Id>)
  {
    && (forall k :: k in events ==> events[k].request !in gone)
    && (forall k :: k in activations ==> activations[k].request !in gone)
  }

  /** No other user's activation hangs off a request made with the account's address. */
  predicate NoForeignActivation(t: Tables, user: Id)
    requires user in t.users
  {
    forall k :: k in t.activations && t.activations[k].user != user && t.activations[k].request in t.requests ==>
      t.requests[t.activations[k].request].emailNormalized != t.users[user].emailNormalized
  }

  lemma DevicesStep(t: Tables, done: set<Id>, device: Id, now: int)
    requires device in t.devices && device !in done
    ensures ErasedDevices(t, done, now)[device := ErasedDevice(t.devices[device], now)]
         == ErasedDevices(t, done + {device}, now)
  {
  }

  function RevokeDeviceCredentials(clients: map<Id, Client>, device: Id): map<Id, Client>
  {
    map k | k in clients :: if clients[k].device == device then RevokedClient(clients[k]) else clients[k]
  }

  lemma ClientsStep(t: Tables, done: set<Id>, device: Id)
    ensures RevokeDeviceCredentials(RevokedClients(t, done), device) == RevokedClients(t, done + {device})
  {
  }

  /** Once the account's own activations and events are gone, only another user's activation can hold a request. */
  lemma RequestsAllow(from: Tables, t: Tables, user: Id)
    requires user in from.users && RequestKeys(from)
    requires t.requests == from.requests && t.activations == from.activations - OwnActivations(from.activations, user)
    requires t.events == from.events - OwnEvents(from.events, from.requests, user, from.users[user].emailNormalized)
    ensures RequestsDeletable(
        t.events, t.activations, OwnRequests(t.requests, user, from.users[user].emailNormalized))
      <==> NoForeignActivation(from, user)
  {
    var address := from.users[user].emailNormalized;
    var gone := OwnRequests(t.requests, user, address);
    assert gone == OwnRequests(from.requests, user, address);
    forall k | k in t.activations
      ensures t.activations[k].request in gone <==>
        from.requests[from.activations[k].request].emailNormalized == address
    {
      assert k in from.activations && from.activations[k].user != user;
    }
    if RequestsDeletable(t.events, t.activations, gone) {
      forall k | k in from.activations && from.activations[k].user != user
        && from.activations[k].request in from.requests
        ensures from.requests[from.activations[k].request].emailNormalized != address
      {
        assert k in t.activations;
      }
    }
  }

  /** Every device of the account is revoked, loses its live credentials and forgets what it was. */
  method EraseDevices(t: Tables, user: Id, now: int) returns (devices: map<Id, Device>, clients: map<Id, Client>)
    ensures devices == ErasedDevices(t, OwnDevices(t.devices, user), now)
    ensures clients == RevokedClients(t, OwnDevices(t.devices, user))
    ensures DevicesErased(t.devices, devices, user, now) && ClientsRevoked(t, clients, user)
  {
    devices, clients := t.devices, t.clients;
    var mine := OwnDevices(t.devices, user);
    var left := mine;
    assert mine - left == {};
    while left != {}
      invariant left <= mine
      invariant devices == ErasedDevices(t, mine - left, now) && clients == RevokedClients(t, mine - left)
      decreases |left|
    {
      var device :| device in left;
      DevicesStep(t, mine - left, device, now);
      ClientsStep(t, mine - left, device);
      assert mine - left + {device} == mine - (left - {device});
      var d := devices[device];
      if !d.revoked {
        d := d.(revoked := true, revokedAt := Some(now));
      }
      clients := RevokeDeviceCredentials(clients, device);
      d := d.(name := "deleted", hardwareHash := None, hardwareKeyVersion := None, updatedAt := now);
      devices := devices[device := d];
      left := left - {device};
    }
    assert mine - {} == mine;
    DevicesRowByRow(t, user, now);
  }

  class Database {
    var tables: Tables

    /**
     Succeeds exactly when no other user's activation hangs off the address; every other delete is allowed when it
     comes. A refused delete leaves everything as it was.
     */
    method EraseAccount(user: Id, now: int, placeholder: string) returns (ok: bool)
      requires user in tables.users && ForeignKeys(tables)
      modifies this
      ensures ok <==> NoForeignActivation(old(tables), user)
      ensures tables == if ok then Erased(old(tables), user, now, placeholder) else old(tables)
      ensures ok ==> AccountErased(old(tables), tables, user, now, placeholder)
    {
      var t := tables;
      var address := t.users[user].emailNormalized;
      var devices, clients := EraseDevices(t, user, now);
      t := t.(devices := devices, clients := clients);
      var tokens := OwnTokens(t.tokens, t.sessions, user);
      assert TokensDeletable(t.tokens, tokens);
      t := t.(tokens := t.tokens - tokens);
      var sessions := OwnSessions(t.sessions, user);
      assert SessionsDeletable(t.tokens, sessions);
      t := t.(sessions := t.sessions - sessions);
      t := t.(activations := t.activations - OwnActivations(t.activations, user));
      t := t.(resets := t.resets - OwnRows(t.resets, user));
      t := t.(events := t.events - OwnEvents(t.events, t.requests, user, address));
      var requests := OwnRequests(t.requests, user, address);
      RequestsAllow(tables, t, user);
      if !RequestsDeletable(t.events, t.activations, requests) {
        return false;
      }
      t := t.(requests := t.requests - requests);
      t := t.(deliveries := t.deliveries - OwnDeliveries(t.deliveries, user, address));
      t := t.(permissions := t.permissions - OwnRows(t.permissions, user));
      t := t.(assignments := t.assignments - OwnRows(t.assignments, user));
      t := t.(users := t.users[user := ErasedUser(t.users[user], now, placeholder)]);
      RowByRow(tables, user, now, placeholder);
      tables := t;
      ok := true;
    }
  }

  /** Account 1 activated a request made with what is now account 0's address. */
  const SHARED_ADDRESS := Tables(
    map[0 := User("a@x.org", "a@x.org", None, None, None, Disabled, None, None),
        1 := User("b@x.org", "b@x.org", None, None, None, Disabled, None, None)],
    map[], map[], map[], map[], map[0 := Activation(0, 1)], map[],
    map[0 := Request(Some(1), "a@x.org")], map[], map[], map[], map[])

  /** Such tables meet every constraint, and account 0 cannot be erased. */
  lemma ForeignActivationBlocks()
    ensures ForeignKeys(SHARED_ADDRESS) && Checks(SHARED_ADDRESS) && UniqueEmails(SHARED_ADDRESS)
    ensures 0 in SHARED_ADDRESS.users && !NoForeignActivation(SHARED_ADDRESS, 0)
  {
    var t := SHARED_ADDRESS;
    assert "a@x.org"[0] != "b@x.org"[0];
    assert 0 in t.activations && t.activations[0].user == 1;
  }

  // ---------------------------------------------------------------- what erasing promises

  /** Every foreign key holds again afterwards. */
  lemma ForeignKeysKept(t: Tables, user: Id, now: int, placeholder: string)
    requires user in t.users && ForeignKeys(t) && NoForeignActivation(t, user)
    ensures ForeignKeys(Erased(t, user, now, placeholder))
  {
  }

  lemma ChecksKept(t: Tables, user: Id, now: int, placeholder: string)
    requires user in t.users && Checks(t)
    ensures Checks(Erased(t, user, now, placeholder))
  {
  }

  lemma EmailsStayUnique(t: Tables, user: Id, now: int, placeholder: string)
    requires user in t.users && UniqueEmails(t)
    requires forall k :: k in t.users ==> t.users[k].emailNormalized != placeholder
    ensures UniqueEmails(Erased(t, user, now, placeholder))
  {
  }

  /** No row belongs to the account any more except its user row, its devices and their credentials. */
  ghost predicate NothingLeft(t: Tables, user: Id)
  {
    && OwnSessions(t.sessions, user) == {} && OwnTokens(t.tokens, t.sessions, user) == {}
    && OwnActivations(t.activations, user) == {} && OwnRows(t.resets, user) == {}
    && (forall k :: k in t.requests ==> t.requests[k].user != Some(user))
    && OwnRows(t.permissions, user) == {} && OwnRows(t.assignments, user) == {}
    && (forall k :: k in t.deliveries ==> !(t.deliveries[k].subjectIsUser && t.deliveries[k].subject == user))
  }

  /** No row anywhere carries the address. */
  ghost predicate Unnamed(t: Tables, address: string)
  {
    && (forall k :: k in t.users ==> t.users[k].emailNormalized != address)
    && (forall k :: k in t.requests ==> t.requests[k].emailNormalized != address)
    && (forall k :: k in t.deliveries ==> t.deliveries[k].recipientLower != address)
  }

  /** The events that are left are of requests that are left, none of them among the account's. */
  ghost predicate NoEventsOf(t: Tables, gone: set<Id>)
  {
    forall k :: k in t.events ==> t.events[k].request !in gone && t.events[k].request in t.requests
  }

  lemma NothingNamesThem(t: Tables, user: Id, now: int, placeholder: string)
    requires user in t.users && UniqueEmails(t) && placeholder != t.users[user].emailNormalized
    ensures NothingLeft(Erased(t, user, now, placeholder), user)
    ensures RequestKeys(t) ==>
      NoEventsOf(Erased(t, user, now, placeholder), OwnRequests(t.requests, user, t.users[user].emailNormalized))
    ensures Unnamed(Erased(t, user, now, placeholder), t.users[user].emailNormalized)
  {
  }

  function Pick<Row>(table: map<Id, Row>, keys: set<Id>): map<Id, Row>
  {
    map k | k in table && k in keys :: table[k]
  }

  function OwnClients(clients: map<Id, Client>, devices: map<Id, Device>, v: Id): set<Id>
  {
    set k | k in clients && clients[k].device in OwnDevices(devices, v)
  }

  function RequestsOf(requests: map<Id, Request>, v: Id): set<Id>
  {
    set k | k in requests && requests[k].user == Some(v)
  }

  function EventsOf(events: map<Id, RequestEvent>, requests: map<Id, Request>, v: Id): set<Id>
  {
    set k | k in events && events[k].request in RequestsOf(requests, v)
  }

  function DeliveriesAbout(deliveries: map<Id, Delivery>, v: Id): set<Id>
  {
    set k | k in deliveries && deliveries[k].subjectIsUser && deliveries[k].subject == v
  }

  /** Everything in the tables that is `v`'s. */
  function Belongings(t: Tables, v: Id): Tables
  {
    Tables(
      Pick(t.users, {v}),
      Pick(t.devices, OwnDevices(t.devices, v)),
      Pick(t.clients, OwnClients(t.clients, t.devices, v)),
      Pick(t.sessions, OwnSessions(t.sessions, v)),
      Pick(t.tokens, OwnTokens(t.tokens, t.sessions, v)),
      Pick(t.activations, OwnActivations(t.activations, v)),
      Pick(t.resets, OwnRows(t.resets, v)),
      Pick(t.requests, RequestsOf(t.requests, v)),
      Pick(t.events, EventsOf(t.events, t.requests, v)),
      Pick(t.deliveries, DeliveriesAbout(t.deliveries, v)),
      Pick(t.permissions, OwnRows(t.permissions, v)),
      Pick(t.assignments, OwnRows(t.assignments, v)))
  }

  /** None of `v`'s requests or mail carries `address`. */
  ghost predicate SharesNothing(t: Tables, v: Id, address: string)
  {
    && (forall k :: k in t.requests && t.requests[k].user == Some(v) ==> t.requests[k].emailNormalized != address)
    && (forall k :: k in t.deliveries && t.deliveries[k].subjectIsUser && t.deliveries[k].subject == v ==>
          t.deliveries[k].recipientLower != address)
  }

  lemma OthersDevices(t: Tables, user: Id, v: Id, now: int)
    requires v != user
    ensures var devices := ErasedDevices(t, OwnDevices(t.devices, user), now);
      var clients := RevokedClients(t, OwnDevices(t.devices, user));
      && Pick(devices, OwnDevices(devices, v)) == Pick(t.devices, OwnDevices(t.devices, v))
      && Pick(clients, OwnClients(clients, devices, v)) == Pick(t.clients, OwnClients(t.clients, t.devices, v))
  {
  }

  lemma OthersSessions(t: Tables, user: Id, v: Id)
    requires v != user
    ensures var sessions := t.sessions - OwnSessions(t.sessions, user);
      var tokens := t.tokens - OwnTokens(t.tokens, t.sessions, user);
      && Pick(sessions, OwnSessions(sessions, v)) == Pick(t.sessions, OwnSessions(t.sessions, v))
      && Pick(tokens, OwnTokens(tokens, sessions, v)) == Pick(t.tokens, OwnTokens(t.tokens, t.sessions, v))
  {
  }

  lemma OthersRequests(t: Tables, user: Id, v: Id, address: string)
    requires v != user && SharesNothing(t, v, address)
    ensures var requests := t.requests - OwnRequests(t.requests, user, address);
      var events := t.events - OwnEvents(t.events, t.requests, user, address);
      && Pick(requests, RequestsOf(requests, v)) == Pick(t.requests, RequestsOf(t.requests, v))
      && Pick(events, EventsOf(events, requests, v)) == Pick(t.events, EventsOf(t.events, t.requests, v))
  {
  }

  lemma OthersMail(t: Tables, user: Id, v: Id, address: string)
    requires v != user && SharesNothing(t, v, address)
    ensures var deliveries := t.deliveries - OwnDeliveries(t.deliveries, user, address);
      Pick(deliveries, DeliveriesAbout(deliveries, v)) == Pick(t.deliveries, DeliveriesAbout(t.deliveries, v))
    ensures var activations := t.activations - OwnActivations(t.activations, user);
      Pick(activations, OwnActivations(activations, v)) == Pick(t.activations, OwnActivations(t.activations, v))
  {
  }

  lemma OthersRows(table: map<Id, Id>, user: Id, v: Id)
    requires v != user
    ensures var left := table - OwnRows(table, user); Pick(left, OwnRows(left, v)) == Pick(table, OwnRows(table, v))
  {
  }

  /** Another account that shares nothing with the address is left exactly as it was. */
  lemma OthersUntouched(t: Tables, user: Id, v: Id, now: int, placeholder: string)
    requires user in t.users && v != user && SharesNothing(t, v, t.users[user].emailNormalized)
    ensures Belongings(Erased(t, user, now, placeholder), v) == Belongings(t, v)
  {
    OthersDevices(t, user, v, now);
    OthersSessions(t, user, v);
    OthersRequests(t, user, v, t.users[user].emailNormalized);
    OthersMail(t, user, v, t.users[user].emailNormalized);
    OthersRows(t.resets, user, v);
    OthersRows(t.permissions, user, v);
    OthersRows(t.assignments, user, v);
    assert Pick(t.users, {v}) == Pick(Erased(t, user, now, placeholder).users, {v});
  }
}
