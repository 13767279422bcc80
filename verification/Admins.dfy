/**
 Managing administrators: who may change whom, what a change does to the sessions of the one changed,
 and which sessions still count. Each request is authorised and carried out in one step.
 */
module Admins {
  import opened Text

  type Id = nat

  datatype Role = Owner | Operator | Auditor

  datatype State = Active | Disabled

  datatype Admin = Admin(
    email: string, username: Option<string>, role: Role, state: State, disabledAt: Option<int>, validAfter: Option<int>)

  type Accounts = map<Id, Admin>

  datatype Session = Session(admin: Id, createdAt: int)

  datatype Answer = Done | OwnAccount | Unknown | Taken

  // ---------------------------------------------------------------- the service

  /** Whether `actor` may change `id` at all. */
  function Permit(accounts: Accounts, actor: Id, id: Id): Answer
  {
    if id == actor then OwnAccount else if id !in accounts then Unknown else Done
  }

  predicate Clashes(accounts: Accounts, email: string, username: Option<string>)
  {
    exists id :: id in accounts &&
      (accounts[id].email == email || (username.Some? && accounts[id].username == username))
  }

  function Invited(accounts: Accounts, id: Id, email: string, username: Option<string>, role: Role): Accounts
  {
    if Clashes(accounts, email, username) then accounts
    else accounts[id := Admin(email, username, role, Active, None, None)]
  }

  function RoleChanged(a: Admin, role: Role, now: int): Admin
  {
    if a.role == role then a else a.(role := role, validAfter := Some(now))
  }

  function Switched(a: Admin, disabled: bool, now: int): Admin
  {
    var wanted := if disabled then Disabled else Active;
    if a.state == wanted then a
    else a.(state := wanted, disabledAt := if disabled then Some(now) else None, validAfter := Some(now))
  }

  function SessionsEnded(a: Admin, now: int): Admin
  {
    a.(validAfter := Some(now))
  }

  /** A session the sign-in check no longer accepts for its age. */
  predicate Stale(a: Admin, s: Session)
  {
    a.validAfter.Some? && s.createdAt < a.validAfter.value
  }

  /** Only `id`'s account changes, and of it neither the names. */
  ghost predicate OnlyChanges(before: Accounts, after: Accounts, id: Id)
  {
    && after.Keys == before.Keys && (forall k :: k in before && k != id ==> after[k] == before[k])
    && (id in before ==> after[id].email == before[id].email && after[id].username == before[id].username)
  }

  /** Who may be changed: any account there is, but one's own. */
  ghost predicate Answers(before: Accounts, actor: Id, id: Id, answer: Answer)
  {
    && (answer == OwnAccount <==> id == actor) && (answer == Done <==> id != actor && id in before)
    && (answer == Unknown <==> id != actor && id !in before)
  }

  class Service {
    var accounts: Accounts

    method Invite(id: Id, email: string, username: Option<string>, role: Role) returns (answer: Answer)
      requires id !in accounts
      modifies this
      ensures answer == if Clashes(old(accounts), email, username) then Taken else Done
      ensures accounts == Invited(old(accounts), id, email, username, role)
    {
      if Clashes(accounts, email, username) {
        return Taken;
      }
      accounts := accounts[id := Admin(email, username, role, Active, None, None)];
      return Done;
    }

    method ChangeRole(actor: Id, id: Id, role: Role, now: int) returns (answer: Answer)
      modifies this
      ensures answer == Permit(old(accounts), actor, id)
      ensures accounts == if answer == Done then old(accounts)[id := RoleChanged(old(accounts)[id], role, now)]
        else old(accounts)
      ensures Answers(old(accounts), actor, id, answer)
      ensures answer == Done ==>
        && OnlyChanges(old(accounts), accounts, id) && accounts[id].role == role
        && accounts[id].state == old(accounts)[id].state && accounts[id].disabledAt == old(accounts)[id].disabledAt
        && accounts[id].validAfter == if old(accounts)[id].role == role then old(accounts)[id].validAfter else Some(now)
    {
      answer := Permit(accounts, actor, id);
      if answer == Done {
        var admin := accounts[id];
        if admin.role != role {
          admin := admin.(role := role);
          admin := admin.(validAfter := Some(now));
        }
        accounts := accounts[id := admin];
      }
    }

    method SetDisabled(actor: Id, id: Id, disabled: bool, now: int) returns (answer: Answer)
      modifies this
      ensures answer == Permit(old(accounts), actor, id)
      ensures accounts == if answer == Done then old(accounts)[id := Switched(old(accounts)[id], disabled, now)]
        else old(accounts)
      ensures Answers(old(accounts), actor, id, answer)
      ensures answer == Done ==>
        && OnlyChanges(old(accounts), accounts, id) && accounts[id].role == old(accounts)[id].role
        && (accounts[id].state == Disabled <==> disabled)
        && (accounts[id].state == old(accounts)[id].state ==> accounts[id] == old(accounts)[id])
        && (accounts[id].state != old(accounts)[id].state ==>
              accounts[id].validAfter == Some(now) && accounts[id].disabledAt == if disabled then Some(now) else None)
    {
      answer := Permit(accounts, actor, id);
      if answer == Done {
        var admin := accounts[id];
        var wanted := if disabled then Disabled else Active;
        if admin.state != wanted {
          admin := admin.(state := wanted);
          admin := admin.(disabledAt := if disabled then Some(now) else None);
          admin := admin.(validAfter := Some(now));
        }
        accounts := accounts[id := admin];
      }
    }

    method EndAllSessions(actor: Id, id: Id, now: int) returns (answer: Answer)
      modifies this
      ensures answer == Permit(old(accounts), actor, id)
      ensures accounts == if answer == Done then old(accounts)[id := SessionsEnded(old(accounts)[id], now)]
        else old(accounts)
      ensures Answers(old(accounts), actor, id, answer)
      ensures answer == Done ==>
        && OnlyChanges(old(accounts), accounts, id) && accounts[id].validAfter == Some(now)
        && accounts[id].role == old(accounts)[id].role && accounts[id].state == old(accounts)[id].state
    {
      answer := Permit(accounts, actor, id);
      if answer == Done {
        accounts := accounts[id := accounts[id].(validAfter := Some(now))];
      }
    }
  }

  // ---------------------------------------------------------------- every run of requests

  type Token = nat

  datatype World = World(accounts: Accounts, sessions: map<Token, Session>, now: int)

  datatype Action =
    | Invite(id: Id, email: string, username: Option<string>, role: Role)
    | ChangeRole(id: Id, to: Role)
    | SetDisabled(id: Id, disabled: bool)
    | EndAll(id: Id)

  datatype Event =
    | Tick(ms: nat)
    | SignIn(token: Token, admin: Id)
    | EndSession(token: Token)                        // ended, or expired
    | ChangePassword(token: Token, replacement: Token)  // ends every session of one's own and starts another
    | Act(token: Token, action: Action)

  /** The session check: the session is known, its admin active, and it is not stale. */
  predicate Accepted(w: World, token: Token)
  {
    && token in w.sessions
    && var s := w.sessions[token];
       s.admin in w.accounts && w.accounts[s.admin].state == Active && !Stale(w.accounts[s.admin], s)
  }

  /** Whether the list of an admin's sessions shows this one. */
  predicate Listed(w: World, token: Token)
  {
    token in w.sessions && w.sessions[token].admin in w.accounts
      && !Stale(w.accounts[w.sessions[token].admin], w.sessions[token])
  }

  predicate ActiveOwner(accounts: Accounts, id: Id)
  {
    id in accounts && accounts[id].state == Active && accounts[id].role == Owner
  }

  function Performed(accounts: Accounts, actor: Id, action: Action, now: int): Accounts
  {
    match action
    case Invite(id, email, username, role) =>
      if id in accounts then accounts else Invited(accounts, id, email, username, role)
    case ChangeRole(id, to) =>
      if Permit(accounts, actor, id) == Done then accounts[id := RoleChanged(accounts[id], to, now)] else accounts
    case SetDisabled(id, disabled) =>
      if Permit(accounts, actor, id) == Done then accounts[id := Switched(accounts[id], disabled, now)] else accounts
    case EndAll(id) =>
      if Permit(accounts, actor, id) == Done then accounts[id := SessionsEnded(accounts[id], now)] else accounts
  }

  function Step(w: World, e: Event): World
  {
    match e
    case Tick(ms) => w.(now := w.now + ms)
    case SignIn(token, admin) =>
      if token !in w.sessions && admin in w.accounts && w.accounts[admin].state == Active
      then w.(sessions := w.sessions[token := Session(admin, w.now)]) else w
    case EndSession(token) => w.(sessions := w.sessions - {token})
    case ChangePassword(token, replacement) =>
      if Accepted(w, token) && replacement !in w.sessions then
        var me := w.sessions[token].admin;
        World(
          w.accounts[me := SessionsEnded(w.accounts[me], w.now)],
          (w.sessions - {token})[replacement := Session(me, w.now)], w.now)
      else w
    case Act(token, action) =>
      if Accepted(w, token) && w.accounts[w.sessions[token].admin].role == Owner
      then w.(accounts := Performed(w.accounts, w.sessions[token].admin, action, w.now)) else w
  }

  function Run(w: World, es: seq<Event>): World
  {
    if es == [] then w else Step(Run(w, Init(es)), Last(es))
  }

  // ---------------------------------------------------------------- what every run keeps

  ghost predicate HasOwner(w: World)
  {
    exists id :: ActiveOwner(w.accounts, id)
  }

  /** The check constraint on disabled accounts. */
  ghost predicate Paired(accounts: Accounts)
  {
    forall id | id in accounts :: accounts[id].state == Disabled <==> accounts[id].disabledAt.Some?
  }

  predicate NamesApart(a: Admin, b: Admin)
  {
    a.email != b.email && (a.username.Some? ==> a.username != b.username)
  }

  ghost predicate NamesUnique(accounts: Accounts)
  {
    forall i, j | i in accounts && j in accounts && i != j :: NamesApart(accounts[i], accounts[j])
  }

  /** No account's mark lies in the future. */
  ghost predicate Timely(accounts: Accounts, now: int)
  {
    forall id | id in accounts && accounts[id].validAfter.Some? :: accounts[id].validAfter.value <= now
  }

  ghost predicate Sound(w: World)
  {
    HasOwner(w) && Paired(w.accounts) && NamesUnique(w.accounts) && Timely(w.accounts, w.now)
  }

  /** The one who acts stays an active owner: nobody changes their own account. */
  lemma ActorStays(w: World, token: Token, action: Action)
    requires Accepted(w, token) && w.accounts[w.sessions[token].admin].role == Owner
    ensures ActiveOwner(Step(w, Act(token, action)).accounts, w.sessions[token].admin)
  {
  }

  lemma OwnerStays(w: World, e: Event)
    requires HasOwner(w)
    ensures HasOwner(Step(w, e))
  {
    var owner :| ActiveOwner(w.accounts, owner);
    if e.Act? && Accepted(w, e.token) && w.accounts[w.sessions[e.token].admin].role == Owner {
      ActorStays(w, e.token, e.action);
    } else {
      assert ActiveOwner(Step(w, e).accounts, owner);
    }
  }

  lemma InvitedStaysUnique(accounts: Accounts, id: Id, email: string, username: Option<string>, role: Role)
    requires NamesUnique(accounts) && id !in accounts
    ensures NamesUnique(Invited(accounts, id, email, username, role))
  {
  }

  /** An invitation is refused exactly when it would leave two accounts with one address or one username. */
  lemma InviteRefusedIff(accounts: Accounts, id: Id, email: string, username: Option<string>, role: Role)
    requires NamesUnique(accounts) && id !in accounts
    ensures Clashes(accounts, email, username) <==>
      !NamesUnique(accounts[id := Admin(email, username, role, Active, None, None)])
  {
    var next := accounts[id := Admin(email, username, role, Active, None, None)];
    if Clashes(accounts, email, username) {
      var k :| k in accounts && (accounts[k].email == email || (username.Some? && accounts[k].username == username));
      assert !NamesApart(next[id], next[k]);
    }
  }

  lemma SameNames(accounts: Accounts, id: Id, a: Admin)
    requires NamesUnique(accounts) && id in accounts && a.email == accounts[id].email
      && a.username == accounts[id].username
    ensures NamesUnique(accounts[id := a])
  {
  }

  lemma PerformedSound(accounts: Accounts, actor: Id, action: Action, now: int)
    requires Paired(accounts) && NamesUnique(accounts) && Timely(accounts, now)
    ensures var next := Performed(accounts, actor, action, now); Paired(next) && NamesUnique(next) && Timely(next, now)
  {
    if action.Invite? {
      if action.id !in accounts {
        InvitedStaysUnique(accounts, action.id, action.email, action.username, action.role);
      }
    } else if Permit(accounts, actor, action.id) == Done {
      SameNames(accounts, action.id, Performed(accounts, actor, action, now)[action.id]);
    }
  }

  lemma StepSound(w: World, e: Event)
    requires Sound(w)
    ensures Sound(Step(w, e))
  {
    OwnerStays(w, e);
    match e
    case Act(token, action) =>
      if token in w.sessions {
        PerformedSound(w.accounts, w.sessions[token].admin, action, w.now);
      }
    case ChangePassword(token, _) =>
      if Accepted(w, token) {
        var me := w.sessions[token].admin;
        SameNames(w.accounts, me, SessionsEnded(w.accounts[me], w.now));
      }
    case _ =>
  }

  lemma {:induction false} RunSound(w: World, es: seq<Event>)
    requires Sound(w)
    ensures Sound(Run(w, es))
  {
    if es != [] {
      RunSound(w, Init(es));
      StepSound(Run(w, Init(es)), Last(es));
    }
  }

  // ---------------------------------------------------------------- sessions

  /** A sign-in of an active admin is accepted and listed from then on. */
  lemma SignedIn(w: World, token: Token, admin: Id)
    requires Sound(w) && token !in w.sessions && admin in w.accounts && w.accounts[admin].state == Active
    ensures var after := Step(w, SignIn(token, admin));
      && Accepted(after, token) && Listed(after, token) && after.sessions[token] == Session(admin, w.now)
      && after.accounts == w.accounts
  {
  }

  /** A session that is ended is gone, and every other is as it was. */
  lemma SessionEnds(w: World, token: Token, other: Token)
    ensures var after := Step(w, EndSession(token));
      && !Accepted(after, token) && !Listed(after, token) && after.accounts == w.accounts
      && (other != token ==> (Accepted(after, other) <==> Accepted(w, other)))
  {
  }

  /** After a change of password the new session alone counts, of those that were there before. */
  lemma PasswordChanged(w: World, token: Token, replacement: Token, other: Token)
    requires Sound(w) && Accepted(w, token) && replacement !in w.sessions
    ensures var me, after := w.sessions[token].admin, Step(w, ChangePassword(token, replacement));
      && Accepted(after, replacement) && after.sessions[replacement] == Session(me, w.now) && !Accepted(after, token)
      && (other in w.sessions && w.sessions[other].admin == me && w.sessions[other].createdAt < w.now ==>
            !Accepted(after, other))
      && (other in w.sessions && w.sessions[other].admin != me ==> (Accepted(after, other) <==> Accepted(w, other)))
  {
  }

  /** What an owner asks for comes about: the invited is there, the role is the one asked for, and so on. */
  lemma ActionTakesEffect(w: World, token: Token, action: Action)
    requires Accepted(w, token) && w.accounts[w.sessions[token].admin].role == Owner
    requires action.id != w.sessions[token].admin
    ensures var after := Step(w, Act(token, action));
      match action
      case Invite(id, email, username, role) =>
        id !in w.accounts && !Clashes(w.accounts, email, username) ==>
          after.accounts == w.accounts[id := Admin(email, username, role, Active, None, None)]
      case ChangeRole(id, to) => id in w.accounts ==> after.accounts[id].role == to
      case SetDisabled(id, disabled) => id in w.accounts ==> (after.accounts[id].state == Disabled <==> disabled)
      case EndAll(id) => id in w.accounts ==> after.accounts[id].validAfter == Some(w.now)
  {
  }

  /** What ends all earlier sessions of `id`: a change of role or state, or ending them outright. */
  predicate Ends(accounts: Accounts, action: Action, id: Id)
  {
    match action
    case Invite(_, _, _, _) => false
    case ChangeRole(target, to) => target == id && id in accounts && accounts[id].role != to
    case SetDisabled(target, disabled) => target == id && id in accounts && (accounts[id].state == Disabled) != disabled
    case EndAll(target) => target == id && id in accounts
  }

  /** Only ending a session, a change of password or such an action costs anyone an accepted session. */
  lemma StaysAccepted(w: World, e: Event, token: Token)
    requires Sound(w) && Accepted(w, token)
    ensures var me := w.sessions[token].admin;
      || Accepted(Step(w, e), token)
      || e == EndSession(token)
      || (e.ChangePassword? && Accepted(w, e.token) && w.sessions[e.token].admin == me)
      || (e.Act? && Accepted(w, e.token) && w.sessions[e.token].admin != me && Ends(w.accounts, e.action, me))
  {
  }

  /** No session of `id` created before `t` counts. */
  ghost predicate EndedBefore(w: World, id: Id, t: int)
  {
    id in w.accounts && w.accounts[id].validAfter.Some? && t <= w.accounts[id].validAfter.value
  }

  lemma ActionEnds(w: World, token: Token, action: Action, id: Id)
    requires Accepted(w, token) && w.accounts[w.sessions[token].admin].role == Owner
    requires Ends(w.accounts, action, id) && id != w.sessions[token].admin
    ensures EndedBefore(Step(w, Act(token, action)), id, w.now)
  {
  }

  lemma EndedStays(w: World, e: Event, id: Id, t: int)
    requires Timely(w.accounts, w.now) && EndedBefore(w, id, t)
    ensures EndedBefore(Step(w, e), id, t)
  {
  }

  lemma {:induction false} EndedForGood(w: World, es: seq<Event>, id: Id, t: int)
    requires Sound(w) && EndedBefore(w, id, t)
    ensures EndedBefore(Run(w, es), id, t)
  {
    if es != [] {
      EndedForGood(w, Init(es), id, t);
      RunSound(w, Init(es));
      EndedStays(Run(w, Init(es)), Last(es), id, t);
    }
  }

  /** After such a change, no session created before it is accepted or listed again, whatever follows. */
  lemma NeverLiveAgain(w: World, token: Token, action: Action, id: Id, es: seq<Event>, earlier: Token)
    requires Sound(w) && Accepted(w, token) && w.accounts[w.sessions[token].admin].role == Owner
    requires Ends(w.accounts, action, id) && id != w.sessions[token].admin
    ensures var after := Run(Step(w, Act(token, action)), es);
      earlier in after.sessions && after.sessions[earlier].admin == id && after.sessions[earlier].createdAt < w.now
      ==> !Accepted(after, earlier) && !Listed(after, earlier)
  {
    var changed := Step(w, Act(token, action));
    StepSound(w, Act(token, action));
    ActionEnds(w, token, action, id);
    EndedForGood(changed, es, id, w.now);
  }
}
