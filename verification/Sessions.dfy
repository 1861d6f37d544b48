/**
 * Login sessions: an allow-list of live token ids, rotated on refresh. A login or refresh is
 * split at its awaits (claim, read the user, read the role, insert the new row), and any
 * number of them interleave with logouts, crashes and administrative changes.
 */
module Sessions {
  import opened Wrappers

  type UserId = nat
  type TokenId = nat
  type OpId = nat

  const SUBSCRIBER := 1

  /** A login account; `role` is its row in the role mapping, if it has one. */
  datatype User = User(active: bool, role: Option<nat>)

  datatype Stage = Claimed | UserRead | RoleRead(role: nat)

  /** A login or refresh in flight. `lineage` is the login it descends from. */
  datatype Op = Op(user: UserId, lineage: OpId, parent: Option<TokenId>, stage: Stage)

  /** A signed refresh token: what it says, and which operation minted it. */
  datatype Token = Token(user: UserId, role: nat, lineage: OpId, parent: Option<TokenId>, minter: OpId)

  datatype State = State(
    users: map<UserId, User>,
    sessions: map<TokenId, UserId>,
    issued: map<TokenId, Token>,
    ops: map<OpId, Op>,
    seen: set<OpId>)

  const INIT := State(map[], map[], map[], map[], {})

  datatype Event =
    | AddUser(u: UserId, user: User)
    | LoginRead(op: OpId, u: UserId)
    | Register(op: OpId, u: UserId)
    | Claim(op: OpId, token: TokenId)
    | ReadUser(op: OpId)
    | ReadRole(op: OpId)
    | Mint(op: OpId, token: TokenId)
    | Crash(op: OpId)
    | Logout(token: TokenId)
    | Change(us: set<UserId>, active: Option<bool>, role: Option<nat>)
    | RevokeAll(u: UserId)

  predicate Enabled(s: State, e: Event) {
    match e
    case AddUser(u, _) => u !in s.users
    case LoginRead(op, u) => op !in s.seen && u in s.users && s.users[u].active
    case Register(op, u) => op !in s.seen && u !in s.users
    case Claim(op, j) => op !in s.seen && j in s.issued
    case ReadUser(op) => op in s.ops && s.ops[op].stage.Claimed?
    case ReadRole(op) => op in s.ops && s.ops[op].stage.UserRead?
    case Mint(op, j) => op in s.ops && s.ops[op].stage.RoleRead? && j !in s.issued
    case Crash(op) => op in s.ops
    case Logout(j) => j in s.issued
    case Change(us, _, _) => us <= s.users.Keys
    case RevokeAll(u) => u in s.users
  }

  function IsActive(s: State, u: UserId): bool { u in s.users && s.users[u].active }

  /** The mapped role; an account with no mapping row counts as a candidate. */
  function RoleOf(s: State, u: UserId): nat {
    if u in s.users && s.users[u].role.Some? then s.users[u].role.value else SUBSCRIBER
  }

  /** updateMany on both tables: an account with no mapping row gets none. */
  function Changed(user: User, active: Option<bool>, role: Option<nat>): User {
    User(if active.Some? then active.value else user.active,
         if role.Some? && user.role.Some? then role else user.role)
  }

  function WithoutUsers(sessions: map<TokenId, UserId>, us: set<UserId>): map<TokenId, UserId> {
    map j | j in sessions && sessions[j] !in us :: sessions[j]
  }

  function Step(s: State, e: Event): State
    requires Enabled(s, e)
  {
    match e
    case AddUser(u, user) => s.(users := s.users[u := user])
    case LoginRead(op, u) => s.(ops := s.ops[op := Op(u, op, None, UserRead)], seen := s.seen + {op})
    case Register(op, u) =>
      s.(users := s.users[u := User(true, Some(SUBSCRIBER))],
         ops := s.ops[op := Op(u, op, None, RoleRead(SUBSCRIBER))],
         seen := s.seen + {op})
    case Claim(op, j) =>
      if j in s.sessions then
        s.(sessions := s.sessions - {j},
           ops := s.ops[op := Op(s.issued[j].user, s.issued[j].lineage, Some(j), Claimed)],
           seen := s.seen + {op})
      else s.(seen := s.seen + {op})
    case ReadUser(op) =>
      if IsActive(s, s.ops[op].user) then s.(ops := s.ops[op := s.ops[op].(stage := UserRead)])
      else s.(ops := s.ops - {op})
    case ReadRole(op) => s.(ops := s.ops[op := s.ops[op].(stage := RoleRead(RoleOf(s, s.ops[op].user)))])
    case Mint(op, j) =>
      var o := s.ops[op];
      s.(sessions := s.sessions[j := o.user],
         issued := s.issued[j := Token(o.user, o.stage.role, o.lineage, o.parent, op)],
         ops := s.ops - {op})
    case Crash(op) => s.(ops := s.ops - {op})
    case Logout(j) => s.(sessions := s.sessions - {j})
    case Change(us, active, role) =>
      s.(users := map u | u in s.users :: if u in us then Changed(s.users[u], active, role) else s.users[u],
         sessions := if active == Some(false) || role.Some? then WithoutUsers(s.sessions, us) else s.sessions)
    case RevokeAll(u) => s.(sessions := WithoutUsers(s.sessions, {u}))
  }

  ghost predicate Runs(s: State, events: seq<Event>, t: State)
    decreases |events|
  {
    if events == [] then s == t
    else Enabled(s, events[0]) && Runs(Step(s, events[0]), events[1..], t)
  }

  lemma {:induction false} RunsSnoc(s: State, events: seq<Event>, t: State, e: Event)
    requires Runs(s, events, t) && Enabled(t, e)
    ensures Runs(s, events + [e], Step(t, e))
    decreases |events|
  {
    if events == [] {
      assert ([e])[1..] == [];
      assert Runs(Step(t, e), [], Step(t, e));
    } else {
      RunsSnoc(Step(s, events[0]), events[1..], t, e);
      assert (events + [e])[1..] == events[1..] + [e];
    }
  }

  /* ---------- the invariant ---------- */

  /** What the history says about one operation in flight. */
  ghost predicate OpInv(s: State, id: OpId)
    requires id in s.ops
  {
    var o := s.ops[id];
    && id in s.seen && o.lineage in s.seen && o.user in s.users
    && (o.parent.Some? ==> Spent(s, o.parent.value) && s.issued[o.parent.value].lineage == o.lineage)
  }

  /** An issued token whose row is gone. */
  ghost predicate Spent(s: State, j: TokenId) { j in s.issued && j !in s.sessions }

  ghost predicate TokenInv(s: State, j: TokenId)
    requires j in s.issued
  {
    var t := s.issued[j];
    && t.lineage in s.seen && t.minter in s.seen && t.minter !in s.ops && t.user in s.users
    && (j in s.sessions ==> s.sessions[j] == t.user)
    && (t.parent.Some? ==> Spent(s, t.parent.value))
  }

  /** Live rows and operations in flight never share a lineage. */
  ghost predicate SingleBranch(s: State) {
    && (forall i, j | i in s.sessions && j in s.sessions && i in s.issued && j in s.issued
                      && s.issued[i].lineage == s.issued[j].lineage :: i == j)
    && (forall a, b | a in s.ops && b in s.ops && s.ops[a].lineage == s.ops[b].lineage :: a == b)
    && (forall j, a | j in s.sessions && j in s.issued && a in s.ops :: s.issued[j].lineage != s.ops[a].lineage)
  }

  /** A spent token has one successor at most, minted or still to be minted. */
  ghost predicate SingleSuccessor(s: State) {
    && (forall i, j | i in s.issued && j in s.issued && s.issued[i].parent.Some?
                      && s.issued[i].parent == s.issued[j].parent :: i == j)
    && (forall j, a | j in s.issued && a in s.ops && s.ops[a].parent.Some? :: s.issued[j].parent != s.ops[a].parent)
  }

  ghost predicate AllOps(s: State) { forall id | id in s.ops :: OpInv(s, id) }

  ghost predicate AllTokens(s: State) { forall j | j in s.issued :: TokenInv(s, j) }

  ghost predicate Inv(s: State) {
    && s.sessions.Keys <= s.issued.Keys
    && AllOps(s) && AllTokens(s)
    && SingleBranch(s) && SingleSuccessor(s)
  }

  lemma ClaimKeepsHistory(s: State, op: OpId, j: TokenId)
    requires Inv(s) && Enabled(s, Claim(op, j))
    ensures AllOps(Step(s, Claim(op, j))) && AllTokens(Step(s, Claim(op, j)))
  {
    var t := Step(s, Claim(op, j));
    assert TokenInv(s, j);
    forall id | id in t.ops ensures OpInv(t, id) {
      if id in s.ops { assert OpInv(s, id); }
    }
    forall i | i in t.issued ensures TokenInv(t, i) {
      assert TokenInv(s, i);
    }
  }

  lemma ClaimKeepsBranch(s: State, op: OpId, j: TokenId)
    requires Inv(s) && Enabled(s, Claim(op, j))
    ensures SingleBranch(Step(s, Claim(op, j)))
  {
  }

  lemma ClaimKeepsSuccessor(s: State, op: OpId, j: TokenId)
    requires Inv(s) && Enabled(s, Claim(op, j))
    ensures SingleSuccessor(Step(s, Claim(op, j)))
  {
    forall i | i in s.issued && s.issued[i].parent == Some(j) ensures j !in s.sessions { assert TokenInv(s, i); }
    forall a | a in s.ops && s.ops[a].parent == Some(j) ensures j !in s.sessions { assert OpInv(s, a); }
  }

  lemma ClaimKeepsInv(s: State, op: OpId, j: TokenId)
    requires Inv(s) && Enabled(s, Claim(op, j))
    ensures Inv(Step(s, Claim(op, j)))
  {
    ClaimKeepsHistory(s, op, j);
    ClaimKeepsBranch(s, op, j);
    ClaimKeepsSuccessor(s, op, j);
  }

  lemma MintKeepsHistory(s: State, op: OpId, j: TokenId)
    requires Inv(s) && Enabled(s, Mint(op, j))
    ensures AllOps(Step(s, Mint(op, j))) && AllTokens(Step(s, Mint(op, j)))
  {
    var t := Step(s, Mint(op, j));
    assert OpInv(s, op);
    forall id | id in t.ops ensures OpInv(t, id) {
      assert OpInv(s, id);
    }
    forall i | i in t.issued ensures TokenInv(t, i) {
      if i in s.issued { assert TokenInv(s, i); }
    }
  }

  lemma MintKeepsBranch(s: State, op: OpId, j: TokenId)
    requires Inv(s) && Enabled(s, Mint(op, j))
    ensures SingleBranch(Step(s, Mint(op, j)))
  {
  }

  lemma MintKeepsSuccessor(s: State, op: OpId, j: TokenId)
    requires Inv(s) && Enabled(s, Mint(op, j))
    ensures SingleSuccessor(Step(s, Mint(op, j)))
  {
  }

  lemma MintKeepsInv(s: State, op: OpId, j: TokenId)
    requires Inv(s) && Enabled(s, Mint(op, j))
    ensures Inv(Step(s, Mint(op, j)))
  {
    MintKeepsHistory(s, op, j);
    MintKeepsBranch(s, op, j);
    MintKeepsSuccessor(s, op, j);
  }

  lemma OpenKeepsHistory(s: State, e: Event)
    requires Inv(s) && Enabled(s, e) && (e.LoginRead? || e.Register?)
    ensures AllOps(Step(s, e)) && AllTokens(Step(s, e))
  {
    var t := Step(s, e);
    forall id | id in t.ops ensures OpInv(t, id) {
      if id in s.ops { assert OpInv(s, id); }
    }
    forall j | j in t.issued ensures TokenInv(t, j) {
      assert TokenInv(s, j);
    }
  }

  lemma OpenKeepsSingle(s: State, e: Event)
    requires Inv(s) && Enabled(s, e) && (e.LoginRead? || e.Register?)
    ensures SingleBranch(Step(s, e)) && SingleSuccessor(Step(s, e))
  {
    forall j | j in s.issued ensures s.issued[j].lineage in s.seen { assert TokenInv(s, j); }
    forall a | a in s.ops ensures s.ops[a].lineage in s.seen { assert OpInv(s, a); }
  }

  lemma OpenKeepsInv(s: State, e: Event)
    requires Inv(s) && Enabled(s, e) && (e.LoginRead? || e.Register?)
    ensures Inv(Step(s, e))
  {
    OpenKeepsHistory(s, e);
    OpenKeepsSingle(s, e);
  }

  /** No new row, operation or token; operations may advance a stage, rows and operations may go. */
  ghost predicate Drops(s: State, t: State) {
    && s.users.Keys <= t.users.Keys && t.issued == s.issued && t.seen == s.seen
    && (forall j | j in t.sessions :: j in s.sessions && t.sessions[j] == s.sessions[j])
    && (forall a | a in t.ops :: a in s.ops && t.ops[a].(stage := Claimed) == s.ops[a].(stage := Claimed))
  }

  lemma DropsKeepsInv(s: State, t: State)
    requires Inv(s) && Drops(s, t)
    ensures Inv(t)
  {
    forall id | id in t.ops ensures OpInv(t, id) {
      assert OpInv(s, id);
    }
    forall j | j in t.issued ensures TokenInv(t, j) {
      assert TokenInv(s, j);
    }
  }

  /** The other events only drop branches. */
  lemma StepKeepsInv(s: State, e: Event)
    requires Inv(s) && Enabled(s, e)
    ensures Inv(Step(s, e))
  {
    if e.Claim? {
      ClaimKeepsInv(s, e.op, e.token);
    } else if e.Mint? {
      MintKeepsInv(s, e.op, e.token);
    } else if e.LoginRead? || e.Register? {
      OpenKeepsInv(s, e);
    } else {
      OtherStepDrops(s, e);
      DropsKeepsInv(s, Step(s, e));
    }
  }

  lemma OtherStepDrops(s: State, e: Event)
    requires Enabled(s, e) && !e.Claim? && !e.Mint? && !e.LoginRead? && !e.Register?
    ensures Drops(s, Step(s, e))
  {
  }

  lemma {:induction false} RunKeepsInv(s: State, events: seq<Event>, t: State)
    requires Inv(s) && Runs(s, events, t)
    ensures Inv(t)
    decreases |events|
  {
    if events != [] {
      StepKeepsInv(s, events[0]);
      RunKeepsInv(Step(s, events[0]), events[1..], t);
    }
  }

  /* ---------- at most one live branch ---------- */

  datatype Branch = Row(token: TokenId) | Pending(op: OpId)

  function Branches(s: State, lineage: OpId): set<Branch> {
    (set j | j in s.sessions && j in s.issued && s.issued[j].lineage == lineage :: Row(j))
    + (set a | a in s.ops && s.ops[a].lineage == lineage :: Pending(a))
  }

  lemma BranchesAreRowsAndOps(s: State, lineage: OpId)
    ensures forall j :: Row(j) in Branches(s, lineage) <==>
                        j in s.sessions && j in s.issued && s.issued[j].lineage == lineage
    ensures forall a :: Pending(a) in Branches(s, lineage) <==> a in s.ops && s.ops[a].lineage == lineage
  {
  }

  lemma AtMostOneElement<T>(s: set<T>)
    requires forall a, b | a in s && b in s :: a == b
    ensures |s| <= 1
  {
    if s != {} {
      var a :| a in s;
      assert s == {a};
    }
  }

  /** However refreshes, replays and logouts interleave, a login has one live branch at most. */
  lemma OneBranchPerLogin(events: seq<Event>, s: State, lineage: OpId)
    requires Runs(INIT, events, s)
    ensures |Branches(s, lineage)| <= 1
  {
    RunKeepsInv(INIT, events, s);
    AtMostOneElement(Branches(s, lineage));
  }

  /** A token id, replayed any number of times, yields one successor at most. */
  lemma OneSuccessorPerToken(events: seq<Event>, s: State, i: TokenId, j: TokenId)
    requires Runs(INIT, events, s)
    requires i in s.issued && j in s.issued && s.issued[i].parent.Some? && s.issued[i].parent == s.issued[j].parent
    ensures i == j
    ensures s.issued[i].parent.value !in s.sessions
  {
    RunKeepsInv(INIT, events, s);
    assert TokenInv(s, i);
  }

  /** An operation that has ended without minting mints nothing ever after. */
  lemma {:induction false} EndedMintsNothing(s: State, events: seq<Event>, t: State, op: OpId)
    requires Runs(s, events, t) && op in s.seen && op !in s.ops
    requires forall j | j in s.issued :: s.issued[j].minter != op
    ensures forall j | j in t.issued :: t.issued[j].minter != op
    decreases |events|
  {
    if events != [] {
      EndedMintsNothing(Step(s, events[0]), events[1..], t, op);
    }
  }

  /** A login or refresh that crashes between its claim and its row leaves the lineage without a successor. */
  lemma CrashedMintsNothing(before: seq<Event>, s: State, op: OpId, after: seq<Event>, t: State)
    requires Runs(INIT, before, s) && op in s.ops && Runs(Step(s, Crash(op)), after, t)
    ensures forall j | j in t.issued :: t.issued[j].minter != op
  {
    RunKeepsInv(INIT, before, s);
    assert OpInv(s, op);
    forall j | j in s.issued ensures s.issued[j].minter != op { assert TokenInv(s, j); }
    EndedMintsNothing(Step(s, Crash(op)), after, t, op);
  }

  /* ---------- deactivation ---------- */

  predicate PastUserCheck(s: State, op: OpId) {
    op in s.ops && !s.ops[op].stage.Claimed?
  }

  predicate Reactivates(e: Event, u: UserId) {
    e.Change? && u in e.us && e.active == Some(true)
  }

  /** What has become of user `u`, inactive since `s`, by the time of `t`. */
  ghost predicate ShutOut(s: State, t: State, u: UserId) {
    && s.seen <= t.seen
    && u in t.users && !t.users[u].active
    && (forall a | a in t.ops && t.ops[a].user == u && PastUserCheck(t, a) :: PastUserCheck(s, a))
    && (forall j | j in t.issued && j !in s.issued && t.issued[j].user == u :: PastUserCheck(s, t.issued[j].minter))
    && (forall j | j in t.sessions && t.sessions[j] == u && j in s.issued :: j in s.sessions && s.sessions[j] == u)
  }

  lemma ShutOutMint(s: State, t: State, op: OpId, j: TokenId, u: UserId)
    requires s.issued.Keys <= t.issued.Keys && Inv(t) && ShutOut(s, t, u) && Enabled(t, Mint(op, j))
    ensures ShutOut(s, Step(t, Mint(op, j)), u)
  {
  }

  lemma ShutOutOpen(s: State, t: State, e: Event, u: UserId)
    requires ShutOut(s, t, u) && Enabled(t, e) && (e.LoginRead? || e.Register? || e.Claim?)
    ensures ShutOut(s, Step(t, e), u)
  {
  }

  lemma ShutOutOther(s: State, t: State, e: Event, u: UserId)
    requires ShutOut(s, t, u) && Enabled(t, e) && !Reactivates(e, u)
    requires !e.Mint? && !e.LoginRead? && !e.Register? && !e.Claim?
    ensures ShutOut(s, Step(t, e), u)
  {
    OtherStepDrops(t, e);
    var v := Step(t, e);
    forall a | a in v.ops && v.ops[a].user == u && PastUserCheck(v, a) ensures PastUserCheck(t, a) {
    }
  }

  lemma ShutOutStep(s: State, t: State, e: Event, u: UserId)
    requires s.issued.Keys <= t.issued.Keys && Inv(t) && ShutOut(s, t, u) && Enabled(t, e) && !Reactivates(e, u)
    ensures ShutOut(s, Step(t, e), u) && s.issued.Keys <= Step(t, e).issued.Keys
  {
    if e.Mint? {
      ShutOutMint(s, t, e.op, e.token, u);
    } else if e.LoginRead? || e.Register? || e.Claim? {
      ShutOutOpen(s, t, e, u);
    } else {
      ShutOutOther(s, t, e, u);
    }
  }

  lemma {:induction false} ShutOutRun(s: State, t: State, events: seq<Event>, v: State, u: UserId)
    requires s.issued.Keys <= t.issued.Keys && Inv(t) && ShutOut(s, t, u) && Runs(t, events, v)
    requires forall e | e in events :: !Reactivates(e, u)
    ensures ShutOut(s, v, u)
    decreases |events|
  {
    if events != [] {
      ShutOutStep(s, t, events[0], u);
      StepKeepsInv(t, events[0]);
      ShutOutRun(s, Step(t, events[0]), events[1..], v, u);
    }
  }

  lemma ShutOutSessions(c: State, t: State, u: UserId)
    requires Inv(t) && ShutOut(c, t, u)
    requires forall j | j in c.sessions :: c.sessions[j] != u
    ensures forall j | j in t.sessions && t.sessions[j] == u ::
              j in t.issued && j !in c.issued && PastUserCheck(c, t.issued[j].minter)
  {
    forall j | j in t.sessions && t.sessions[j] == u
      ensures j in t.issued && j !in c.issued && PastUserCheck(c, t.issued[j].minter)
    {
      assert TokenInv(t, j);
    }
  }

  lemma ShutOutFrom(c: State, after: seq<Event>, t: State, u: UserId)
    requires Inv(c) && Runs(c, after, t)
    requires u in c.users && !c.users[u].active && forall j | j in c.sessions :: c.sessions[j] != u
    requires forall e | e in after :: !Reactivates(e, u)
    ensures !IsActive(t, u)
    ensures forall j | j in t.sessions && t.sessions[j] == u ::
              j in t.issued && j !in c.issued && PastUserCheck(c, t.issued[j].minter)
    ensures forall j | j in t.issued && j !in c.issued && t.issued[j].user == u :: PastUserCheck(c, t.issued[j].minter)
  {
    assert ShutOut(c, c, u);
    ShutOutRun(c, c, after, t, u);
    RunKeepsInv(c, after, t);
    ShutOutSessions(c, t, u);
  }

  /** What one administrative change commits, column by column; nothing else moves. */
  lemma ChangeCommits(s: State, us: set<UserId>, active: Option<bool>, role: Option<nat>)
    requires us <= s.users.Keys
    ensures var c := Step(s, Change(us, active, role));
            && c.users.Keys == s.users.Keys && c.ops == s.ops && c.issued == s.issued && c.seen == s.seen
            && (forall u | u in s.users && u !in us :: c.users[u] == s.users[u])
            && (forall u | u in us ::
                  && c.users[u].active == (if active.Some? then active.value else s.users[u].active)
                  && c.users[u].role == (if role.Some? && s.users[u].role.Some? then role else s.users[u].role))
            && (active != Some(false) && role.None? ==> c.sessions == s.sessions)
            && (active == Some(false) || role.Some? ==>
                  && (forall j :: j in c.sessions <==> j in s.sessions && s.sessions[j] !in us)
                  && (forall j | j in c.sessions :: c.sessions[j] == s.sessions[j]))
  {
  }

  /** After a reactivation the users can log in again, and a bare one ends no session. */
  lemma ReactivationCommits(s: State, us: set<UserId>, role: Option<nat>, u: UserId, op: OpId)
    requires us <= s.users.Keys && u in us && op !in s.seen
    ensures var c := Step(s, Change(us, Some(true), role));
            && u in c.users && c.users[u].active && Enabled(c, LoginRead(op, u))
            && (role.None? ==> c.sessions == s.sessions)
  {
    ChangeCommits(s, us, Some(true), role);
  }

  /** A reset ends the user's sessions and no one else's, and changes nothing more. */
  lemma ResetSparesOthers(s: State, u: UserId)
    requires u in s.users
    ensures var c := Step(s, RevokeAll(u));
            && c.users == s.users && c.ops == s.ops && c.issued == s.issued && c.seen == s.seen
            && (forall j :: j in c.sessions <==> j in s.sessions && s.sessions[j] != u)
            && (forall j | j in c.sessions :: c.sessions[j] == s.sessions[j])
  {
  }

  /** The transaction that deactivates accounts also deletes their session rows. */
  lemma DeactivationCommits(s: State, us: set<UserId>, role: Option<nat>, u: UserId)
    requires Inv(s) && us <= s.users.Keys && u in us
    ensures var c := Step(s, Change(us, Some(false), role));
            && Inv(c) && c.ops == s.ops && c.issued == s.issued
            && u in c.users && !c.users[u].active && forall j | j in c.sessions :: c.sessions[j] != u
  {
    StepKeepsInv(s, Change(us, Some(false), role));
  }

  /**
   * Once a deactivation commits, and until a reactivation, every live session of the user was
   * minted by a login or refresh already past its check of the user at the commit. So no
   * refresh that claims after the commit, and no login that starts after it, ever mints.
   */
  lemma DeactivationShutsOut(before: seq<Event>, s: State, us: set<UserId>, role: Option<nat>,
                             after: seq<Event>, t: State, u: UserId)
    requires Runs(INIT, before, s) && us <= s.users.Keys && u in us
    requires Runs(Step(s, Change(us, Some(false), role)), after, t)
    requires forall e | e in after :: !(e.Change? && u in e.us && e.active == Some(true))
    ensures !IsActive(t, u)
    ensures forall j | j in t.sessions && t.sessions[j] == u ::
              j in t.issued && j !in s.issued && PastUserCheck(s, t.issued[j].minter)
    ensures forall j | j in t.issued && j !in s.issued && t.issued[j].user == u :: PastUserCheck(s, t.issued[j].minter)
  {
    RunKeepsInv(INIT, before, s);
    DeactivationCommits(s, us, role, u);
    ShutOutFrom(Step(s, Change(us, Some(false), role)), after, t, u);
  }

  /* ---------- password resets ---------- */

  /** A login or refresh of `u`, descending from `lineage`, is between its first step and its row. */
  ghost predicate InFlight(s: State, u: UserId, lineage: OpId) {
    exists a :: a in s.ops && s.ops[a].user == u && s.ops[a].lineage == lineage
  }

  /** A lineage that has begun since `s`, or that was in flight then. */
  ghost predicate Escapes(s: State, u: UserId, lineage: OpId) {
    lineage !in s.seen || InFlight(s, u, lineage)
  }

  /** What has become of the sessions of `u`, all deleted in `s`, by the time of `t`. */
  ghost predicate Revoked(s: State, t: State, u: UserId) {
    && s.seen <= t.seen && s.issued.Keys <= t.issued.Keys
    && (forall j | j in t.sessions && t.sessions[j] == u ::
          j in t.issued && j !in s.issued && Escapes(s, u, t.issued[j].lineage))
    && (forall a | a in t.ops && t.ops[a].user == u :: Escapes(s, u, t.ops[a].lineage))
  }

  lemma RevokedMint(s: State, t: State, op: OpId, j: TokenId, u: UserId)
    requires Revoked(s, t, u) && Enabled(t, Mint(op, j))
    ensures Revoked(s, Step(t, Mint(op, j)), u)
  {
  }

  lemma RevokedOpen(s: State, t: State, e: Event, u: UserId)
    requires Revoked(s, t, u) && Enabled(t, e) && (e.LoginRead? || e.Register?)
    ensures Revoked(s, Step(t, e), u)
  {
  }

  lemma RevokedClaim(s: State, t: State, op: OpId, j: TokenId, u: UserId)
    requires Inv(t) && Revoked(s, t, u) && Enabled(t, Claim(op, j))
    ensures Revoked(s, Step(t, Claim(op, j)), u)
  {
    assert TokenInv(t, j);
  }

  lemma RevokedOther(s: State, t: State, e: Event, u: UserId)
    requires Revoked(s, t, u) && Enabled(t, e)
    requires !e.Mint? && !e.LoginRead? && !e.Register? && !e.Claim?
    ensures Revoked(s, Step(t, e), u)
  {
    OtherStepDrops(t, e);
    var v := Step(t, e);
    forall a | a in v.ops && v.ops[a].user == u ensures Escapes(s, u, v.ops[a].lineage) {
      assert t.ops[a].user == u;
    }
  }

  lemma RevokedStep(s: State, t: State, e: Event, u: UserId)
    requires Inv(t) && Revoked(s, t, u) && Enabled(t, e)
    ensures Revoked(s, Step(t, e), u)
  {
    match e
    case Mint(op, j) => RevokedMint(s, t, op, j, u);
    case Claim(op, j) => RevokedClaim(s, t, op, j, u);
    case LoginRead(_, _) => RevokedOpen(s, t, e, u);
    case Register(_, _) => RevokedOpen(s, t, e, u);
    case _ => RevokedOther(s, t, e, u);
  }

  lemma {:induction false} RevokedRun(s: State, t: State, events: seq<Event>, v: State, u: UserId)
    requires Inv(t) && Revoked(s, t, u) && Runs(t, events, v)
    ensures Revoked(s, v, u)
    decreases |events|
  {
    if events != [] {
      RevokedStep(s, t, events[0], u);
      StepKeepsInv(t, events[0]);
      RevokedRun(s, Step(t, events[0]), events[1..], v, u);
    }
  }

  lemma ResetCommits(s: State, u: UserId)
    requires Inv(s) && u in s.users
    ensures Inv(Step(s, RevokeAll(u))) && Revoked(s, Step(s, RevokeAll(u)), u)
  {
    var c := Step(s, RevokeAll(u));
    StepKeepsInv(s, RevokeAll(u));
    forall a | a in c.ops && c.ops[a].user == u ensures Escapes(s, u, c.ops[a].lineage) {
      assert a in s.ops;
    }
  }

  /**
   * After a password reset commits, every live session of the user is a new one, and descends
   * from a login that began after the reset or from one with an operation in flight at it.
   */
  lemma ResetLeavesNewSessions(before: seq<Event>, s: State, u: UserId, after: seq<Event>, t: State)
    requires Runs(INIT, before, s) && u in s.users
    requires Runs(Step(s, RevokeAll(u)), after, t)
    ensures forall j | j in t.sessions && t.sessions[j] == u ::
              j in t.issued && j !in s.issued && Escapes(s, u, t.issued[j].lineage)
  {
    RunKeepsInv(INIT, before, s);
    ResetCommits(s, u);
    RevokedRun(s, Step(s, RevokeAll(u)), after, t, u);
  }

  /** Candidate 7 logs in and has begun a refresh. */
  lemma RefreshBegun() returns (events: seq<Event>, s: State)
    ensures Runs(INIT, events, s) && 7 in s.users && s.users[7].active
    ensures s.ops == map[1 := Op(7, 0, Some(0), Claimed)] && 0 in s.issued && 1 !in s.issued
  {
    events, s := [], INIT;
    RunsSnoc(INIT, events, s, AddUser(7, User(true, None)));
    events, s := events + [AddUser(7, User(true, None))], Step(s, AddUser(7, User(true, None)));
    RunsSnoc(INIT, events, s, LoginRead(0, 7));
    events, s := events + [LoginRead(0, 7)], Step(s, LoginRead(0, 7));
    RunsSnoc(INIT, events, s, ReadRole(0));
    events, s := events + [ReadRole(0)], Step(s, ReadRole(0));
    RunsSnoc(INIT, events, s, Mint(0, 0));
    events, s := events + [Mint(0, 0)], Step(s, Mint(0, 0));
    assert s.issued[0].user == 7 && s.issued[0].lineage == 0;
    RunsSnoc(INIT, events, s, Claim(1, 0));
    events, s := events + [Claim(1, 0)], Step(s, Claim(1, 0));
  }

  /** A reset does not reach a refresh in flight: its successor is live afterwards. */
  lemma ResetSparesRefresh() returns (before: seq<Event>, s: State, after: seq<Event>, t: State)
    ensures Runs(INIT, before, s) && 7 in s.users && Runs(Step(s, RevokeAll(7)), after, t)
    ensures after == [ReadUser(1), ReadRole(1), Mint(1, 1)]
    ensures 1 in t.sessions && t.sessions[1] == 7 && 1 in t.issued && t.issued[1].parent == Some(0)
  {
    before, s := RefreshBegun();
    var c := Step(s, RevokeAll(7));
    assert c.ops == s.ops;
    after, t := [], c;
    RunsSnoc(c, after, t, ReadUser(1));
    after, t := after + [ReadUser(1)], Step(t, ReadUser(1));
    RunsSnoc(c, after, t, ReadRole(1));
    after, t := after + [ReadRole(1)], Step(t, ReadRole(1));
    RunsSnoc(c, after, t, Mint(1, 1));
    after, t := after + [Mint(1, 1)], Step(t, Mint(1, 1));
  }

  /* ---------- role changes ---------- */

  predicate PastRoleRead(s: State, op: OpId) {
    op in s.ops && s.ops[op].stage.RoleRead?
  }

  predicate Reroles(e: Event, u: UserId) {
    e.Change? && u in e.us && e.role.Some?
  }

  /** User `u` keeps the role it has in `s`, and what reads the role after `s` reads that one. */
  ghost predicate RoleHeld(s: State, t: State, u: UserId) {
    && s.seen <= t.seen
    && u in s.users && u in t.users && RoleOf(t, u) == RoleOf(s, u)
    && (forall a | PastRoleRead(t, a) && t.ops[a].user == u ::
          PastRoleRead(s, a) || t.ops[a].stage.role == RoleOf(s, u))
    && (forall j | j in t.issued && j !in s.issued && t.issued[j].user == u ::
          PastRoleRead(s, t.issued[j].minter) || t.issued[j].role == RoleOf(s, u))
  }

  lemma RoleHeldMint(s: State, t: State, op: OpId, j: TokenId, u: UserId)
    requires s.issued.Keys <= t.issued.Keys && RoleHeld(s, t, u) && Enabled(t, Mint(op, j))
    ensures RoleHeld(s, Step(t, Mint(op, j)), u)
  {
  }

  lemma RoleHeldOpen(s: State, t: State, e: Event, u: UserId)
    requires RoleHeld(s, t, u) && Enabled(t, e) && (e.LoginRead? || e.Register? || e.Claim?)
    ensures RoleHeld(s, Step(t, e), u)
  {
  }

  lemma RoleHeldOther(s: State, t: State, e: Event, u: UserId)
    requires RoleHeld(s, t, u) && Enabled(t, e) && !Reroles(e, u)
    requires !e.Mint? && !e.LoginRead? && !e.Register? && !e.Claim?
    ensures RoleHeld(s, Step(t, e), u)
  {
    OtherStepDrops(t, e);
  }

  lemma RoleHeldStep(s: State, t: State, e: Event, u: UserId)
    requires s.issued.Keys <= t.issued.Keys && RoleHeld(s, t, u) && Enabled(t, e) && !Reroles(e, u)
    ensures RoleHeld(s, Step(t, e), u) && s.issued.Keys <= Step(t, e).issued.Keys
  {
    if e.Mint? {
      RoleHeldMint(s, t, e.op, e.token, u);
    } else if e.LoginRead? || e.Register? || e.Claim? {
      RoleHeldOpen(s, t, e, u);
    } else {
      RoleHeldOther(s, t, e, u);
    }
  }

  lemma {:induction false} RoleHeldRun(s: State, t: State, events: seq<Event>, v: State, u: UserId)
    requires s.issued.Keys <= t.issued.Keys && RoleHeld(s, t, u) && Runs(t, events, v)
    requires forall e | e in events :: !Reroles(e, u)
    ensures RoleHeld(s, v, u)
    decreases |events|
  {
    if events != [] {
      RoleHeldStep(s, t, events[0], u);
      RoleHeldRun(s, Step(t, events[0]), events[1..], v, u);
    }
  }

  /** The transaction that changes a role updates the mapping row, if there is one to update. */
  lemma RoleChangeCommits(s: State, us: set<UserId>, active: Option<bool>, role: nat, u: UserId)
    requires Inv(s) && us <= s.users.Keys && u in us
    ensures var c := Step(s, Change(us, active, Some(role)));
            && Inv(c) && c.ops == s.ops && c.issued == s.issued && u in c.users
            && RoleOf(c, u) == if s.users[u].role.Some? then role else SUBSCRIBER
  {
    StepKeepsInv(s, Change(us, active, Some(role)));
  }

  lemma RoleHeldFrom(c: State, after: seq<Event>, t: State, u: UserId)
    requires Inv(c) && Runs(c, after, t) && u in c.users
    requires forall e | e in after :: !Reroles(e, u)
    ensures forall j | j in t.issued && j !in c.issued && t.issued[j].user == u
                         && !PastRoleRead(c, t.issued[j].minter) ::
              t.issued[j].role == RoleOf(c, u)
  {
    assert RoleHeld(c, c, u);
    RoleHeldRun(c, c, after, t, u);
  }

  /**
   * A refresh that claims after a role change, or has yet to read the role, mints the role of
   * the mapping row the change updated. An account with no such row gets none, and goes on
   * minting the candidate's role.
   */
  lemma RoleChangeReachesTokens(before: seq<Event>, s: State, us: set<UserId>, active: Option<bool>, role: nat,
                                after: seq<Event>, t: State, u: UserId)
    requires Runs(INIT, before, s) && us <= s.users.Keys && u in us
    requires Runs(Step(s, Change(us, active, Some(role))), after, t)
    requires forall e | e in after :: !(e.Change? && u in e.us && e.role.Some?)
    ensures forall j | j in t.issued && j !in s.issued && t.issued[j].user == u
                         && !PastRoleRead(s, t.issued[j].minter) ::
              t.issued[j].role == if s.users[u].role.Some? then role else SUBSCRIBER
  {
    RunKeepsInv(INIT, before, s);
    RoleChangeCommits(s, us, active, role, u);
    RoleHeldFrom(Step(s, Change(us, active, Some(role))), after, t, u);
  }
}
