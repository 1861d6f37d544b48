/**
 * The session-keeping methods, run without interruption, over the tables they change. Each
 * is a run of the machine in Sessions, so what every run keeps holds between their calls.
 */
module AuthService {
  import opened Wrappers
  import opened Sessions

  class AuthService {
    var users: map<UserId, User>
    var sessions: map<TokenId, UserId>
    /** What each signed refresh token says; only these pass signature verification. */
    var issued: map<TokenId, Token>
    ghost var ops: map<OpId, Op>
    ghost var seen: set<OpId>

    constructor ()
      ensures View() == INIT
    {
      users, sessions, issued, ops, seen := map[], map[], map[], map[], {};
    }

    ghost function View(): State
      reads this
    {
      State(users, sessions, issued, ops, seen)
    }

    method Login(u: UserId, passwordOk: bool, newId: TokenId, op: OpId)
      returns (r: Option<Token>, ghost events: seq<Event>)
      requires newId !in issued && op !in seen
      modifies this
      ensures Runs(old(View()), events, View())
      ensures users == old(users)
      ensures r.Some? <==> passwordOk && u in users && users[u].active
      ensures r.None? ==> View() == old(View())
      ensures r.Some? ==>
                && r.value == Token(u, if users[u].role.Some? then users[u].role.value else 1, op, None, op)
                && sessions == old(sessions)[newId := u] && issued == old(issued)[newId := r.value]
    {
      events := [];
      if u !in users || !users[u].active || !passwordOk {
        return None, [];
      }
      RunsSnoc(old(View()), events, View(), LoginRead(op, u));
      events := events + [LoginRead(op, u)];
      ops, seen := ops[op := Op(u, op, None, UserRead)], seen + {op};

      var role := if users[u].role.Some? then users[u].role.value else SUBSCRIBER;
      RunsSnoc(old(View()), events, View(), ReadRole(op));
      events := events + [ReadRole(op)];
      ops := ops[op := Op(u, op, None, RoleRead(role))];

      RunsSnoc(old(View()), events, View(), Mint(op, newId));
      events := events + [Mint(op, newId)];
      var token := Token(u, role, op, None, op);
      sessions, issued := sessions[newId := u], issued[newId := token];
      ops := ops - {op};
      r := Some(token);
    }

    method Refresh(token: TokenId, newId: TokenId, op: OpId) returns (r: Option<Token>, ghost events: seq<Event>)
      requires newId !in issued && op !in seen
      modifies this
      ensures Runs(old(View()), events, View())
      ensures users == old(users)
      ensures r.Some? <==>
              && token in old(issued) && token in old(sessions)
              && old(issued)[token].user in users && users[old(issued)[token].user].active
      // The presented row is gone either way: a second presentation gets nothing.
      ensures token in old(issued) && r.None? ==> sessions == old(sessions) - {token} && issued == old(issued)
      ensures token !in old(issued) ==> View() == old(View())
      ensures r.Some? ==>
                var was := old(issued)[token];
                && r.value == Token(was.user, if users[was.user].role.Some? then users[was.user].role.value else 1,
                                    was.lineage, Some(token), op)
                && sessions == (old(sessions) - {token})[newId := was.user]
                && issued == old(issued)[newId := r.value]
    {
      events := [];
      if token !in issued {
        return None, [];
      }
      var claims := issued[token];
      var count := if token in sessions then 1 else 0;
      RunsSnoc(old(View()), events, View(), Claim(op, token));
      events := events + [Claim(op, token)];
      sessions := sessions - {token};
      seen := seen + {op};
      if count == 0 {
        assert sessions == old(sessions);
        return None, events;
      }
      ops := ops[op := Op(claims.user, claims.lineage, Some(token), Claimed)];

      var active := claims.user in users && users[claims.user].active;
      RunsSnoc(old(View()), events, View(), ReadUser(op));
      events := events + [ReadUser(op)];
      if !active {
        ops := ops - {op};
        return None, events;
      }
      ops := ops[op := Op(claims.user, claims.lineage, Some(token), UserRead)];

      var role := if users[claims.user].role.Some? then users[claims.user].role.value else SUBSCRIBER;
      RunsSnoc(old(View()), events, View(), ReadRole(op));
      events := events + [ReadRole(op)];
      ops := ops[op := Op(claims.user, claims.lineage, Some(token), RoleRead(role))];

      RunsSnoc(old(View()), events, View(), Mint(op, newId));
      events := events + [Mint(op, newId)];
      var next := Token(claims.user, role, claims.lineage, Some(token), op);
      sessions, issued := sessions[newId := claims.user], issued[newId := next];
      ops := ops - {op};
      r := Some(next);
    }

    method Logout(token: Option<TokenId>) returns (ghost events: seq<Event>)
      modifies this
      ensures Runs(old(View()), events, View())
      ensures sessions == if token.Some? && token.value in issued then old(sessions) - {token.value} else old(sessions)
      ensures users == old(users) && issued == old(issued)
    {
      events := [];
      if token.Some? && token.value in issued {
        RunsSnoc(old(View()), events, View(), Event.Logout(token.value));
        events := events + [Event.Logout(token.value)];
        sessions := sessions - {token.value};
      }
    }

    /** The end of a verified registration: a candidate's account, active, with its first session. */
    method OpenRegistered(u: UserId, newId: TokenId, op: OpId) returns (r: Token, ghost events: seq<Event>)
      requires newId !in issued && op !in seen && u !in users
      modifies this
      ensures Runs(old(View()), events, View())
      ensures users == old(users)[u := User(true, Some(1))]
      ensures r == Token(u, 1, op, None, op)
      ensures sessions == old(sessions)[newId := u] && issued == old(issued)[newId := r]
    {
      events := [];
      RunsSnoc(old(View()), events, View(), Register(op, u));
      events := events + [Register(op, u)];
      users := users[u := User(true, Some(SUBSCRIBER))];
      ops, seen := ops[op := Op(u, op, None, RoleRead(SUBSCRIBER))], seen + {op};

      RunsSnoc(old(View()), events, View(), Mint(op, newId));
      events := events + [Mint(op, newId)];
      r := Token(u, SUBSCRIBER, op, None, op);
      sessions, issued := sessions[newId := u], issued[newId := r];
      ops := ops - {op};
    }

    /** What a password reset does to the session table. */
    method EndSessions(u: UserId) returns (ghost events: seq<Event>)
      requires u in users
      modifies this
      ensures Runs(old(View()), events, View())
      ensures users == old(users) && issued == old(issued)
      ensures forall j :: j in sessions <==> j in old(sessions) && old(sessions)[j] != u
      ensures forall j | j in sessions :: sessions[j] == old(sessions)[j]
    {
      RunsSnoc(old(View()), [], View(), RevokeAll(u));
      events := [] + [RevokeAll(u)];
      sessions := WithoutUsers(sessions, {u});
    }

    /** The transaction behind an administrator's status or role change. */
    method ApplyUserChanges(us: set<UserId>, active: Option<bool>, role: Option<nat>) returns (ghost events: seq<Event>)
      requires us <= users.Keys
      modifies this
      ensures Runs(old(View()), events, View())
      ensures users.Keys == old(users).Keys && issued == old(issued)
      ensures forall u | u in users && u !in us :: users[u] == old(users)[u]
      ensures forall u | u in us ::
                && users[u].active == (if active.Some? then active.value else old(users)[u].active)
                && users[u].role == (if role.Some? && old(users)[u].role.Some? then role else old(users)[u].role)
      ensures (active == Some(false) || role.Some?) ==>
                && (forall j :: j in sessions <==> j in old(sessions) && old(sessions)[j] !in us)
                && (forall j | j in sessions :: sessions[j] == old(sessions)[j])
      ensures active != Some(false) && role.None? ==> sessions == old(sessions)
    {
      RunsSnoc(old(View()), [], View(), Change(us, active, role));
      events := [] + [Change(us, active, role)];
      users := map u | u in users :: if u in us then Changed(users[u], active, role) else users[u];
      if active == Some(false) || role.Some? {
        sessions := WithoutUsers(sessions, us);
      }
    }
  }
}
