/**
 * Login identity and employer approval. A login's NodeID means a SubscriberID for a candidate
 * and a PersonNodeID for everyone else, and the two id sequences overlap; three resolvers
 * decide which it is in three different ways. Requests are split at their awaits: the checks
 * of a review or a change are read before the transaction that commits it.
 */
module Accounts {
  import opened Wrappers

  const SUBSCRIBER := 1
  const CLIENT := 4
  const STAFF_ROLES := {2, 3, 5, 7}
  const ROLES := {1, 2, 3, 4, 5, 6, 7}

  type Id = int

  datatype Person = Person(clientID: Option<Id>)
  datatype Login = Login(nodeID: Option<Id>, subscriberID: Option<Id>, active: bool)
  datatype Company = Company(userID: Option<Id>)
  datatype Status = Pending | Approved | Rejected

  /** The row that holds a login's name and address. */
  datatype Profile = PersonRow(id: Id) | CvRow(id: Id)

  /** The rows one approval created. */
  datatype Made = Made(person: Id, company: Id, user: Id)

  datatype Op = Reviewing(reg: Id, decision: Status) | Changing(us: set<Id>, active: Option<bool>, role: Option<int>)

  /** The tables, the requests in flight, and two records of history: profiles and approvals. */
  datatype State = State(
    persons: map<Id, Person>,
    cvs: set<Id>,
    users: map<Id, Login>,
    roles: map<Id, int>,
    companies: map<Id, Company>,
    regs: map<Id, Status>,
    nextPerson: Id,
    nextSubscriber: Id,
    nextUser: Id,
    nextCompany: Id,
    ops: map<int, Op>,
    born: map<Id, Profile>,
    made: map<Id, Made>)

  /** Empty tables; identity columns count from 1. */
  const INIT := State(map[], {}, map[], map[], map[], map[], 1, 1, 1, 1, map[], map[], map[])

  datatype Event =
    | RegisterCandidate
    | CreateStaff(staffRole: int)
    | Submit(reg: Id)
    | BeginReview(op: int, reg: Id, decision: Status)
    | CommitReview(op: int)
    | BeginChange(op: int, us: set<Id>, active: Option<bool>, role: Option<int>)
    | CommitChange(op: int)
    | Crash(op: int)

  /** The checks of a role change: never across the candidate line, nor the employer line. */
  predicate RoleAllowed(s: State, us: set<Id>, role: int)
    requires us <= s.users.Keys
  {
    && role in ROLES
    && (forall u | u in us :: s.users[u].subscriberID.Some? <==> role == SUBSCRIBER)
    && (forall u | u in us :: (u in s.roles && s.roles[u] == CLIENT) <==> role == CLIENT)
  }

  predicate ReviewOpen(s: State, reg: Id) {
    reg in s.regs && s.regs[reg] == Pending
  }

  predicate Enabled(s: State, e: Event) {
    match e
    case RegisterCandidate => true
    case CreateStaff(role) => role in STAFF_ROLES
    case Submit(reg) => reg !in s.regs
    case BeginReview(op, reg, decision) => op !in s.ops && ReviewOpen(s, reg) && decision != Pending
    case CommitReview(op) => op in s.ops && s.ops[op].Reviewing?
    case BeginChange(op, us, _, role) =>
      op !in s.ops && us <= s.users.Keys && (role.Some? ==> RoleAllowed(s, us, role.value))
    case CommitChange(op) => op in s.ops && s.ops[op].Changing?
    case Crash(op) => op in s.ops
  }

  /** One transaction: registration and CV rows, the login that points at them, its role. */
  function WithCandidate(s: State): State {
    var sid, u := s.nextSubscriber, s.nextUser;
    s.(cvs := s.cvs + {sid}, nextSubscriber := sid + 1,
       users := s.users[u := Login(Some(sid), Some(sid), true)], nextUser := u + 1,
       roles := s.roles[u := SUBSCRIBER],
       born := s.born[u := CvRow(sid)])
  }

  /** A person row, a login that points at it through NodeID, and its role. */
  function WithPersonLogin(s: State, role: int, company: Option<Id>): State {
    var p, u := s.nextPerson, s.nextUser;
    s.(persons := s.persons[p := Person(company)], nextPerson := p + 1,
       users := s.users[u := Login(Some(p), None, true)], nextUser := u + 1,
       roles := s.roles[u := role],
       born := s.born[u := PersonRow(p)])
  }

  /** The approval transaction: claim the pending row, then company, person, login and role. */
  function Reviewed(s: State, reg: Id, decision: Status): State {
    if !ReviewOpen(s, reg) then s
    else
      var claimed := s.(regs := s.regs[reg := decision]);
      if decision != Approved then claimed
      else
        var c := s.nextCompany;
        WithPersonLogin(claimed, CLIENT, Some(c)).(
          companies := s.companies[c := Company(Some(s.nextUser))], nextCompany := c + 1,
          made := s.made[reg := Made(s.nextPerson, c, s.nextUser)])
  }

  function Changed(s: State, us: set<Id>, active: Option<bool>, role: Option<int>): State {
    s.(users := map u | u in s.users ::
                  if u in us && active.Some? then s.users[u].(active := active.value) else s.users[u],
       roles := map u | u in s.roles :: if u in us && role.Some? then role.value else s.roles[u])
  }

  function Step(s: State, e: Event): State
    requires Enabled(s, e)
  {
    match e
    case RegisterCandidate => WithCandidate(s)
    case CreateStaff(role) => WithPersonLogin(s, role, None)
    case Submit(reg) => s.(regs := s.regs[reg := Pending])
    case BeginReview(op, reg, decision) => s.(ops := s.ops[op := Reviewing(reg, decision)])
    case CommitReview(op) => Reviewed(s.(ops := s.ops - {op}), s.ops[op].reg, s.ops[op].decision)
    case BeginChange(op, us, active, role) => s.(ops := s.ops[op := Changing(us, active, role)])
    case CommitChange(op) => Changed(s.(ops := s.ops - {op}), s.ops[op].us, s.ops[op].active, s.ops[op].role)
    case Crash(op) => s.(ops := s.ops - {op})
  }

  ghost predicate Runs(s: State, events: seq<Event>, t: State)
    decreases |events|
  {
    if events == [] then s == t
    else Enabled(s, events[0]) && Runs(Step(s, events[0]), events[1..], t)
  }

  /* ---------- the three resolvers ---------- */

  predicate Truthy(id: Option<Id>) { id.Some? && id.value != 0 }

  function FindPerson(s: State, id: Option<Id>): Option<Profile> {
    if Truthy(id) && id.value in s.persons then Some(PersonRow(id.value)) else None
  }

  function FindCv(s: State, id: Option<Id>): Option<Profile> {
    if Truthy(id) && id.value in s.cvs then Some(CvRow(id.value)) else None
  }

  /** Login, refresh and /me: branches on the role the session carries. */
  function IdentityFor(s: State, user: Login, role: int): Option<Profile> {
    if role == SUBSCRIBER then FindCv(s, user.subscriberID) else FindPerson(s, user.nodeID)
  }

  /** Password reset mail: branches on SubscriberID. */
  function ResetContact(s: State, user: Login): Option<Profile> {
    if Truthy(user.subscriberID) then FindCv(s, user.subscriberID) else FindPerson(s, user.nodeID)
  }

  /** The admin panel: two batched lookups for a page of logins, joined back row by row. */
  function DescribeUsers(s: State, page: seq<Login>): seq<Option<Profile>> {
    var subscriberIds := set r | r in page && r.subscriberID.Some? :: r.subscriberID.value;
    var nodeIds := set r | r in page && r.subscriberID.None? && r.nodeID.Some? :: r.nodeID.value;
    var cvs := set id | id in subscriberIds && id in s.cvs;
    var people := set id | id in nodeIds && id in s.persons;
    seq(|page|, i requires 0 <= i < |page| =>
      var u := page[i];
      if u.subscriberID.Some? && u.subscriberID.value in cvs then Some(CvRow(u.subscriberID.value))
      else if u.subscriberID.None? && u.nodeID.Some? && u.nodeID.value in people then Some(PersonRow(u.nodeID.value))
      else None)
  }

  function RoleOf(s: State, u: Id): int {
    if u in s.roles then s.roles[u] else SUBSCRIBER
  }

  /* ---------- the invariant ---------- */

  ghost predicate Ids(s: State) {
    && s.nextPerson >= 1 && s.nextSubscriber >= 1 && s.nextUser >= 1 && s.nextCompany >= 1
    && (forall p | p in s.persons :: 1 <= p < s.nextPerson)
    && (forall c | c in s.cvs :: 1 <= c < s.nextSubscriber)
    && (forall u | u in s.users :: 1 <= u < s.nextUser)
    && (forall c | c in s.companies :: 1 <= c < s.nextCompany)
    && (forall u :: u in s.roles <==> u in s.users)
    && (forall u :: u in s.born <==> u in s.users)
  }

  /** Role, SubscriberID, NodeID and the person's company agree on what kind of login this is. */
  ghost predicate LoginInv(s: State, u: Id)
    requires u in s.users && u in s.roles && u in s.born
  {
    match s.users[u].subscriberID
    case Some(sid) =>
      && s.roles[u] == SUBSCRIBER && s.users[u].nodeID == Some(sid)
      && sid >= 1 && sid in s.cvs && s.born[u] == CvRow(sid)
    case None =>
      && s.roles[u] != SUBSCRIBER && s.users[u].nodeID.Some?
      && var p := s.users[u].nodeID.value;
      && p >= 1 && p in s.persons && s.born[u] == PersonRow(p)
      && (s.roles[u] == CLIENT <==> s.persons[p].clientID.Some?)
  }

  /** A change whose checks were passed earlier still respects both lines. */
  ghost predicate OpInv(s: State, op: int)
    requires op in s.ops
  {
    match s.ops[op]
    case Reviewing(_, decision) => decision != Pending
    case Changing(us, _, role) =>
      us <= s.users.Keys && us <= s.roles.Keys && (role.Some? ==> RoleAllowed(s, us, role.value))
  }

  /** Company, person, login and role of one approval, cross-linked. */
  ghost predicate Linked(s: State, m: Made) {
    && m.person in s.persons && s.persons[m.person].clientID == Some(m.company)
    && m.company in s.companies && s.companies[m.company].userID == Some(m.user)
    && m.user in s.users && s.users[m.user].nodeID == Some(m.person) && s.users[m.user].subscriberID == None
    && m.user in s.roles && s.roles[m.user] == CLIENT
  }

  ghost predicate LinkedAt(s: State, reg: Id) { reg in s.made ==> Linked(s, s.made[reg]) }

  ghost predicate MadeFor(s: State, reg: Id, company: Id) { reg in s.made && s.made[reg].company == company }

  ghost predicate MadePerson(s: State, reg: Id, p: Id) { reg in s.made && s.made[reg].person == p }

  ghost predicate MadeLogin(s: State, reg: Id, u: Id) { reg in s.made && s.made[reg].user == u }

  /** Two approvals share no row. */
  ghost predicate Apart(s: State, a: Id, b: Id) {
    a in s.made && b in s.made && a != b ==>
      s.made[a].person != s.made[b].person && s.made[a].company != s.made[b].company && s.made[a].user != s.made[b].user
  }

  ghost predicate CompanyOwned(s: State, c: Id) { exists reg :: MadeFor(s, reg, c) }

  ghost predicate PersonOwned(s: State, p: Id) { exists reg :: MadePerson(s, reg, p) }

  ghost predicate LoginOwned(s: State, u: Id) { exists reg :: MadeLogin(s, reg, u) }

  ghost predicate ReviewInv(s: State) {
    && (forall reg :: reg in s.made <==> reg in s.regs && s.regs[reg] == Approved)
    && (forall reg {:trigger LinkedAt(s, reg)} :: LinkedAt(s, reg))
    && (forall a, b {:trigger Apart(s, a, b)} :: Apart(s, a, b))
    && (forall c {:trigger CompanyOwned(s, c)} | c in s.companies :: CompanyOwned(s, c))
    && (forall p {:trigger PersonOwned(s, p)} | p in s.persons && s.persons[p].clientID.Some? :: PersonOwned(s, p))
    && (forall u {:trigger LoginOwned(s, u)} | u in s.roles && s.roles[u] == CLIENT :: LoginOwned(s, u))
  }

  ghost predicate AllLogins(s: State)
    requires Ids(s)
  {
    forall u {:trigger LoginInv(s, u)} | u in s.users :: LoginInv(s, u)
  }

  ghost predicate AllOps(s: State) {
    forall op {:trigger OpInv(s, op)} | op in s.ops :: OpInv(s, op)
  }

  ghost predicate Inv(s: State) {
    Ids(s) && AllLogins(s) && AllOps(s) && ReviewInv(s)
  }

  /** Tables only grow, and logins keep whether they are an employer's: approvals stand. */
  ghost predicate Extends(s: State, t: State) {
    && t.made == s.made && t.companies == s.companies
    && (forall reg :: reg in t.made <==> reg in t.regs && t.regs[reg] == Approved)
    && (forall p | p in s.persons :: p in t.persons && t.persons[p] == s.persons[p])
    && (forall p | p in t.persons && t.persons[p].clientID.Some? :: p in s.persons)
    && (forall u | u in s.users ::
          u in t.users && t.users[u].nodeID == s.users[u].nodeID && t.users[u].subscriberID == s.users[u].subscriberID)
    && (forall u | u in s.roles :: u in t.roles && (t.roles[u] == CLIENT <==> s.roles[u] == CLIENT))
    && (forall u | u in t.roles && t.roles[u] == CLIENT :: u in s.roles)
  }

  lemma OthersKeepReviews(s: State, t: State)
    requires ReviewInv(s) && Extends(s, t)
    ensures ReviewInv(t)
  {
    forall reg ensures LinkedAt(t, reg) { assert LinkedAt(s, reg); }
    forall a, b ensures Apart(t, a, b) { assert Apart(s, a, b); }
    forall c | c in t.companies ensures CompanyOwned(t, c) {
      assert CompanyOwned(s, c);
      var reg :| MadeFor(s, reg, c);
      assert MadeFor(t, reg, c);
    }
    forall p | p in t.persons && t.persons[p].clientID.Some? ensures PersonOwned(t, p) {
      assert PersonOwned(s, p);
      var reg :| MadePerson(s, reg, p);
      assert MadePerson(t, reg, p);
    }
    forall u | u in t.roles && t.roles[u] == CLIENT ensures LoginOwned(t, u) {
      assert LoginOwned(s, u);
      var reg :| MadeLogin(s, reg, u);
      assert MadeLogin(t, reg, u);
    }
  }

  lemma OthersKeepOps(s: State, t: State)
    requires AllOps(s) && Extends(s, t) && t.ops == s.ops
    ensures AllOps(t)
  {
    forall op | op in t.ops ensures OpInv(t, op) {
      assert OpInv(s, op);
      if t.ops[op].Changing? {
        AllowedStands(s, t, t.ops[op].us, t.ops[op].role);
      }
    }
  }

  /** A passed check stays passed while logins keep their side of both lines. */
  lemma AllowedStands(s: State, t: State, us: set<Id>, role: Option<int>)
    requires us <= s.users.Keys && us <= s.roles.Keys && (role.Some? ==> RoleAllowed(s, us, role.value))
    requires Extends(s, t)
    ensures us <= t.users.Keys && us <= t.roles.Keys && (role.Some? ==> RoleAllowed(t, us, role.value))
  {
    forall u | u in us ensures u in t.users && u in t.roles {
      assert u in s.users && u in s.roles;
    }
  }

  lemma CandidateExtends(s: State)
    requires Ids(s) && ReviewInv(s)
    ensures Ids(WithCandidate(s)) && Extends(s, WithCandidate(s))
  {
  }

  lemma CandidateKeepsLogins(s: State)
    requires Ids(s) && AllLogins(s) && Ids(WithCandidate(s))
    ensures AllLogins(WithCandidate(s))
  {
    var t := WithCandidate(s);
    forall u | u in t.users ensures LoginInv(t, u) {
      if u != s.nextUser { assert LoginInv(s, u); }
    }
  }

  lemma CandidateKeepsInv(s: State)
    requires Inv(s)
    ensures Inv(WithCandidate(s))
  {
    CandidateExtends(s);
    CandidateKeepsLogins(s);
    OthersKeepReviews(s, WithCandidate(s));
    OthersKeepOps(s, WithCandidate(s));
  }

  lemma PersonLoginKeepsIds(s: State, role: int, company: Option<Id>)
    requires Ids(s)
    ensures Ids(WithPersonLogin(s, role, company))
  {
  }

  lemma PersonLoginKeepsLogins(s: State, role: int, company: Option<Id>)
    requires Ids(s) && AllLogins(s) && Ids(WithPersonLogin(s, role, company))
    requires role != SUBSCRIBER && (role == CLIENT <==> company.Some?)
    ensures AllLogins(WithPersonLogin(s, role, company))
  {
    var t := WithPersonLogin(s, role, company);
    forall u | u in t.users ensures LoginInv(t, u) {
      if u != s.nextUser { assert LoginInv(s, u); }
    }
  }

  lemma StaffExtends(s: State, role: int)
    requires Ids(s) && ReviewInv(s) && role in STAFF_ROLES
    ensures Extends(s, WithPersonLogin(s, role, None))
  {
  }

  lemma StaffKeepsInv(s: State, role: int)
    requires Inv(s) && role in STAFF_ROLES
    ensures Inv(WithPersonLogin(s, role, None))
  {
    PersonLoginKeepsIds(s, role, None);
    PersonLoginKeepsLogins(s, role, None);
    StaffExtends(s, role);
    OthersKeepReviews(s, WithPersonLogin(s, role, None));
    OthersKeepOps(s, WithPersonLogin(s, role, None));
  }

  /** Approving only adds rows; it is the one step that adds an employer's login. */
  lemma ApprovalKeepsLogins(s: State, reg: Id)
    requires Ids(s) && AllLogins(s) && ReviewOpen(s, reg)
    ensures Ids(Reviewed(s, reg, Approved)) && AllLogins(Reviewed(s, reg, Approved))
  {
    PersonLoginKeepsIds(s, CLIENT, Some(s.nextCompany));
    PersonLoginKeepsLogins(s, CLIENT, Some(s.nextCompany));
    var t, v := Reviewed(s, reg, Approved), WithPersonLogin(s, CLIENT, Some(s.nextCompany));
    forall u | u in t.users ensures LoginInv(t, u) {
      assert LoginInv(v, u);
    }
  }

  lemma ApprovalKeepsOps(s: State, reg: Id)
    requires Ids(s) && AllOps(s) && ReviewOpen(s, reg)
    ensures AllOps(Reviewed(s, reg, Approved))
  {
    var t := Reviewed(s, reg, Approved);
    forall op | op in t.ops ensures OpInv(t, op) {
      assert OpInv(s, op);
    }
  }

  lemma ApprovalKeepsLinks(s: State, reg: Id)
    requires Ids(s) && ReviewInv(s) && ReviewOpen(s, reg)
    ensures forall r :: LinkedAt(Reviewed(s, reg, Approved), r)
    ensures forall a, b :: Apart(Reviewed(s, reg, Approved), a, b)
  {
    var t := Reviewed(s, reg, Approved);
    forall r ensures LinkedAt(t, r) {
      assert LinkedAt(s, r);
    }
    forall a, b ensures Apart(t, a, b) {
      assert Apart(s, a, b) && LinkedAt(s, a) && LinkedAt(s, b);
    }
  }

  lemma ApprovalKeepsReviews(s: State, reg: Id)
    requires Ids(s) && ReviewInv(s) && ReviewOpen(s, reg)
    ensures ReviewInv(Reviewed(s, reg, Approved))
  {
    var t := Reviewed(s, reg, Approved);
    ApprovalKeepsLinks(s, reg);
    forall c | c in t.companies ensures CompanyOwned(t, c) {
      if c == s.nextCompany {
        assert MadeFor(t, reg, c);
      } else {
        assert CompanyOwned(s, c);
        var r :| MadeFor(s, r, c);
        assert MadeFor(t, r, c);
      }
    }
    forall p | p in t.persons && t.persons[p].clientID.Some? ensures PersonOwned(t, p) {
      if p == s.nextPerson {
        assert MadePerson(t, reg, p);
      } else {
        assert PersonOwned(s, p);
        var r :| MadePerson(s, r, p);
        assert MadePerson(t, r, p);
      }
    }
    forall u | u in t.roles && t.roles[u] == CLIENT ensures LoginOwned(t, u) {
      if u == s.nextUser {
        assert MadeLogin(t, reg, u);
      } else {
        assert LoginOwned(s, u);
        var r :| MadeLogin(s, r, u);
        assert MadeLogin(t, r, u);
      }
    }
  }

  /** A registration that is not approved may be entered or rejected freely. */
  lemma RegistrationKeepsInv(s: State, reg: Id, status: Status)
    requires Inv(s) && status != Approved && (reg in s.regs ==> s.regs[reg] == Pending)
    ensures Inv(s.(regs := s.regs[reg := status]))
  {
    var t := s.(regs := s.regs[reg := status]);
    OthersKeepReviews(s, t);
    OthersKeepOps(s, t);
    forall u | u in t.users ensures LoginInv(t, u) {
      assert LoginInv(s, u);
    }
  }

  /** Stale checks are harmless: no committed change ever moved a login over either line. */
  lemma ChangeExtends(s: State, us: set<Id>, active: Option<bool>, role: Option<int>)
    requires Ids(s) && ReviewInv(s) && us <= s.users.Keys && (role.Some? ==> RoleAllowed(s, us, role.value))
    ensures Ids(Changed(s, us, active, role)) && Extends(s, Changed(s, us, active, role))
  {
  }

  lemma ChangeKeepsInv(s: State, us: set<Id>, active: Option<bool>, role: Option<int>)
    requires Inv(s) && us <= s.users.Keys && (role.Some? ==> RoleAllowed(s, us, role.value))
    ensures Inv(Changed(s, us, active, role))
  {
    var t := Changed(s, us, active, role);
    ChangeExtends(s, us, active, role);
    OthersKeepReviews(s, t);
    OthersKeepOps(s, t);
    forall u | u in t.users ensures LoginInv(t, u) {
      assert LoginInv(s, u);
    }
  }

  /** Opening or dropping a request changes no table. */
  lemma RequestKeepsInv(s: State, t: State)
    requires Inv(s) && t == s.(ops := t.ops)
    requires forall op | op in t.ops :: (op in s.ops && t.ops[op] == s.ops[op]) || OpInv(t, op)
    ensures Inv(t)
  {
    forall u | u in t.users ensures LoginInv(t, u) {
      assert LoginInv(s, u);
    }
    forall op | op in t.ops ensures OpInv(t, op) {
      if op in s.ops { assert OpInv(s, op); }
    }
    OthersKeepReviews(s, t);
  }

  lemma ReviewKeepsInv(s: State, reg: Id, decision: Status)
    requires Inv(s) && decision != Pending
    ensures Inv(Reviewed(s, reg, decision))
  {
    if ReviewOpen(s, reg) {
      if decision == Approved {
        ApprovalKeepsLogins(s, reg);
        ApprovalKeepsOps(s, reg);
        ApprovalKeepsReviews(s, reg);
      } else {
        RegistrationKeepsInv(s, reg, decision);
      }
    }
  }

  lemma StepKeepsInv(s: State, e: Event)
    requires Inv(s) && Enabled(s, e)
    ensures Inv(Step(s, e))
  {
    match e
    case RegisterCandidate => CandidateKeepsInv(s);
    case CreateStaff(role) => StaffKeepsInv(s, role);
    case Submit(reg) => RegistrationKeepsInv(s, reg, Pending);
    case BeginReview(_, _, _) => RequestKeepsInv(s, Step(s, e));
    case BeginChange(op, us, active, role) =>
      forall u | u in us ensures u in s.roles { assert u in s.users; }
      assert OpInv(Step(s, e), op);
      RequestKeepsInv(s, Step(s, e));
    case Crash(_) => RequestKeepsInv(s, Step(s, e));
    case CommitReview(op) =>
      assert OpInv(s, op);
      var r := s.(ops := s.ops - {op});
      RequestKeepsInv(s, r);
      ReviewKeepsInv(r, s.ops[op].reg, s.ops[op].decision);
    case CommitChange(op) =>
      assert OpInv(s, op);
      var r := s.(ops := s.ops - {op});
      RequestKeepsInv(s, r);
      assert s.ops[op].role.Some? ==> RoleAllowed(r, s.ops[op].us, s.ops[op].role.value);
      ChangeKeepsInv(r, s.ops[op].us, s.ops[op].active, s.ops[op].role);
  }

  lemma {:induction false} RunKeepsInv(s: State, events: seq<Event>, t: State)
    requires Inv(s) && Runs(s, events, t)
    ensures Inv(t)
    decreases |events|
  {
    if events != [] {
      StepKeepsInv(s, events[0]);
      RunKeepsInv(Step(s, events[0]), events[1..], t);
    }
  }

  /** No run from empty tables breaks the invariant. */
  lemma RunFromStart(events: seq<Event>, s: State)
    requires Runs(INIT, events, s)
    ensures Inv(s)
  {
    assert Inv(INIT);
    RunKeepsInv(INIT, events, s);
  }

  /* ---------- identity ---------- */

  /** All three resolvers find the profile row that was created with the login. */
  lemma ResolversAgree(events: seq<Event>, s: State, page: seq<Id>)
    requires Runs(INIT, events, s)
    requires forall i | 0 <= i < |page| :: page[i] in s.users
    ensures forall i | 0 <= i < |page| :: page[i] in s.born
    ensures forall i | 0 <= i < |page| ::
              && IdentityFor(s, s.users[page[i]], RoleOf(s, page[i])) == Some(s.born[page[i]])
              && ResetContact(s, s.users[page[i]]) == Some(s.born[page[i]])
    ensures DescribeUsers(s, seq(|page|, i requires 0 <= i < |page| => s.users[page[i]]))
         == seq(|page|, i requires 0 <= i < |page| => Some(s.born[page[i]]))
  {
    RunFromStart(events, s);
    var rows := seq(|page|, i requires 0 <= i < |page| => s.users[page[i]]);
    var described := DescribeUsers(s, rows);
    forall i | 0 <= i < |page|
      ensures IdentityFor(s, s.users[page[i]], RoleOf(s, page[i])) == Some(s.born[page[i]])
      ensures ResetContact(s, s.users[page[i]]) == Some(s.born[page[i]])
      ensures described[i] == Some(s.born[page[i]])
    {
      assert LoginInv(s, page[i]);
      assert rows[i] == s.users[page[i]] && rows[i] in rows;
    }
  }

  /** In any state a resolver answers only with a row that is there, named by the id it looks at. */
  lemma ResolversFindRows(s: State, user: Login, role: int)
    ensures forall p {:trigger PersonRow(p)} ::
              (IdentityFor(s, user, role) == Some(PersonRow(p)) || ResetContact(s, user) == Some(PersonRow(p))) ==>
                p in s.persons && user.nodeID == Some(p)
    ensures forall c {:trigger CvRow(c)} ::
              (IdentityFor(s, user, role) == Some(CvRow(c)) || ResetContact(s, user) == Some(CvRow(c))) ==>
                c in s.cvs && user.subscriberID == Some(c)
  {
  }

  /** So does the admin list, which never looks for a candidate among the persons. */
  lemma DescribeFindsRows(s: State, page: seq<Login>, i: nat)
    requires i < |page|
    ensures |DescribeUsers(s, page)| == |page|
    ensures DescribeUsers(s, page)[i].Some? ==>
              match DescribeUsers(s, page)[i].value
              case PersonRow(p) => p in s.persons && page[i].nodeID == Some(p) && page[i].subscriberID.None?
              case CvRow(c) => c in s.cvs && page[i].subscriberID == Some(c)
  {
  }

  /** What the role says, the SubscriberID and the person's company say too. */
  lemma RoleDiscriminates(events: seq<Event>, s: State, u: Id)
    requires Runs(INIT, events, s) && u in s.users
    ensures u in s.roles && u in s.born
    ensures s.roles[u] == SUBSCRIBER <==> s.users[u].subscriberID.Some?
    ensures s.roles[u] == SUBSCRIBER ==> s.users[u].nodeID == s.users[u].subscriberID
    ensures s.roles[u] == CLIENT <==>
            s.born[u].PersonRow? && s.born[u].id in s.persons && s.persons[s.born[u].id].clientID.Some?
  {
    RunFromStart(events, s);
    assert LoginInv(s, u);
  }

  /** The candidate line is exact: another role resolves to the login's own row iff it is on the same side. */
  lemma CrossingLosesIdentity(events: seq<Event>, s: State, u: Id, role: int)
    requires Runs(INIT, events, s) && u in s.users
    ensures u in s.born
    ensures IdentityFor(s, s.users[u], role) == Some(s.born[u]) <==>
            (role == SUBSCRIBER <==> s.users[u].subscriberID.Some?)
  {
    RunFromStart(events, s);
    assert LoginInv(s, u);
  }

  /** The id spaces do overlap: two logins with one NodeID and different people behind it. */
  lemma NodeIdsCollide()
    ensures var s := WithPersonLogin(WithCandidate(INIT), 5, None);
            && Runs(INIT, [RegisterCandidate, CreateStaff(5)], s)
            && s.users[1].nodeID == s.users[2].nodeID == Some(1)
            && s.born[1] == CvRow(1) && s.born[2] == PersonRow(1)
            && IdentityFor(s, s.users[1], 5) == Some(s.born[2])
  {
    var s1 := WithCandidate(INIT);
    assert Runs(WithPersonLogin(s1, 5, None), [], WithPersonLogin(s1, 5, None));
    assert Runs(s1, [CreateStaff(5)], WithPersonLogin(s1, 5, None)) by {
      assert [CreateStaff(5)][1..] == [];
    }
    assert [RegisterCandidate, CreateStaff(5)][1..] == [CreateStaff(5)];
  }

  /* ---------- what a change writes ---------- */

  /** From `s` to `t` the named logins got the status and role asked for, and nothing else moved. */
  ghost predicate Written(s: State, t: State, us: set<Id>, active: Option<bool>, role: Option<int>) {
    && t.users.Keys == s.users.Keys && t.roles.Keys == s.roles.Keys
    && (forall u | u in s.users && u !in us :: t.users[u] == s.users[u])
    && (forall u | u in s.roles && u !in us :: t.roles[u] == s.roles[u])
    && (forall u | u in us && u in s.users ::
          && t.users[u].nodeID == s.users[u].nodeID && t.users[u].subscriberID == s.users[u].subscriberID
          && t.users[u].active == (if active.Some? then active.value else s.users[u].active))
    && (forall u | u in us && u in s.roles :: t.roles[u] == if role.Some? then role.value else s.roles[u])
    && t.persons == s.persons && t.cvs == s.cvs && t.companies == s.companies
    && t.regs == s.regs && t.made == s.made && t.born == s.born
  }

  lemma ChangeWrites(s: State, us: set<Id>, active: Option<bool>, role: Option<int>)
    ensures Written(s, Changed(s, us, active, role), us, active, role)
  {
  }

  /** A review of an open registration ends as decided, and a rejection does nothing more. */
  lemma ReviewDecides(s: State, reg: Id, decision: Status)
    requires ReviewOpen(s, reg) && decision != Pending
    ensures Reviewed(s, reg, decision).regs == s.regs[reg := decision]
    ensures decision == Rejected ==> Reviewed(s, reg, decision) == s.(regs := s.regs[reg := Rejected])
  {
  }

  /* ---------- employer review ---------- */

  lemma CompanyOwnedOnce(s: State, c: Id)
    requires ReviewInv(s) && c in s.companies
    ensures exists reg :: MadeFor(s, reg, c) && forall r | MadeFor(s, r, c) :: r == reg
  {
    assert CompanyOwned(s, c);
    var reg :| MadeFor(s, reg, c);
    forall r | MadeFor(s, r, c) ensures r == reg { assert Apart(s, r, reg); }
  }

  lemma PersonOwnedOnce(s: State, p: Id)
    requires ReviewInv(s) && p in s.persons && s.persons[p].clientID.Some?
    ensures exists reg :: MadePerson(s, reg, p) && forall r | MadePerson(s, r, p) :: r == reg
  {
    assert PersonOwned(s, p);
    var reg :| MadePerson(s, reg, p);
    forall r | MadePerson(s, r, p) ensures r == reg { assert Apart(s, r, reg); }
  }

  lemma LoginOwnedOnce(s: State, u: Id)
    requires ReviewInv(s) && u in s.roles && s.roles[u] == CLIENT
    ensures exists reg :: MadeLogin(s, reg, u) && forall r | MadeLogin(s, r, u) :: r == reg
  {
    assert LoginOwned(s, u);
    var reg :| MadeLogin(s, reg, u);
    forall r | MadeLogin(s, r, u) ensures r == reg { assert Apart(s, r, reg); }
  }

  /**
   * In every reachable state each approved registration has its own company, person, login
   * and Client role, cross-linked; no other registration has any; and there are no further
   * companies, persons with a company, or employer logins.
   */
  lemma ApprovedExactlyOnce(events: seq<Event>, s: State)
    requires Runs(INIT, events, s)
    ensures forall reg :: reg in s.made <==> reg in s.regs && s.regs[reg] == Approved
    ensures forall reg | reg in s.made :: Linked(s, s.made[reg])
    ensures forall c | c in s.companies :: exists reg :: MadeFor(s, reg, c) && forall r | MadeFor(s, r, c) :: r == reg
    ensures forall p | p in s.persons && s.persons[p].clientID.Some? ::
              exists reg :: MadePerson(s, reg, p) && forall r | MadePerson(s, r, p) :: r == reg
    ensures forall u | u in s.roles && s.roles[u] == CLIENT ::
              exists reg :: MadeLogin(s, reg, u) && forall r | MadeLogin(s, r, u) :: r == reg
  {
    RunFromStart(events, s);
    forall reg | reg in s.made ensures Linked(s, s.made[reg]) {
      assert LinkedAt(s, reg);
    }
    forall c | c in s.companies
      ensures exists reg :: MadeFor(s, reg, c) && forall r | MadeFor(s, r, c) :: r == reg
    {
      CompanyOwnedOnce(s, c);
    }
    forall p | p in s.persons && s.persons[p].clientID.Some?
      ensures exists reg :: MadePerson(s, reg, p) && forall r | MadePerson(s, r, p) :: r == reg
    {
      PersonOwnedOnce(s, p);
    }
    forall u | u in s.roles && s.roles[u] == CLIENT
      ensures exists reg :: MadeLogin(s, reg, u) && forall r | MadeLogin(s, r, u) :: r == reg
    {
      LoginOwnedOnce(s, u);
    }
  }

  lemma ReviewOfOther(s: State, other: Id, decision: Status, reg: Id)
    requires reg in s.regs && s.regs[reg] != Pending
    ensures var t := Reviewed(s, other, decision);
            && reg in t.regs && t.regs[reg] == s.regs[reg]
            && (reg in s.made ==> reg in t.made && t.made[reg] == s.made[reg])
  {
    if ReviewOpen(s, other) {
      assert other != reg;
      assert Reviewed(s, other, decision).regs == s.regs[other := decision];
      if decision == Approved {
        assert Reviewed(s, other, decision).made == s.made[other := Made(s.nextPerson, s.nextCompany, s.nextUser)];
      }
    }
  }

  lemma DecisionStands(s: State, e: Event, reg: Id)
    requires Enabled(s, e) && reg in s.regs && s.regs[reg] != Pending
    ensures var t := Step(s, e);
            && reg in t.regs && t.regs[reg] == s.regs[reg]
            && (reg in s.made ==> reg in t.made && t.made[reg] == s.made[reg])
  {
    if e.CommitReview? {
      ReviewOfOther(s.(ops := s.ops - {e.op}), s.ops[e.op].reg, s.ops[e.op].decision, reg);
    }
  }

  /** A decided registration keeps its decision and its rows, whoever else reviews it. */
  lemma {:induction false} DecisionIsFinal(s: State, events: seq<Event>, t: State, reg: Id)
    requires Runs(s, events, t)
    requires reg in s.regs && s.regs[reg] != Pending
    ensures reg in t.regs && t.regs[reg] == s.regs[reg]
    ensures reg in s.made ==> reg in t.made && t.made[reg] == s.made[reg]
    decreases |events|
  {
    if events != [] {
      DecisionStands(s, events[0], reg);
      DecisionIsFinal(Step(s, events[0]), events[1..], t, reg);
    }
  }

  lemma RunsTwo(s: State, a: Event, b: Event)
    requires Enabled(s, a) && Enabled(Step(s, a), b)
    ensures Runs(s, [a, b], Step(Step(s, a), b))
  {
    assert [a, b][1..] == [b] && [b][1..] == [];
    assert Runs(Step(s, a), [b], Step(Step(s, a), b));
  }

  lemma {:induction false} RunsJoin(s: State, a: seq<Event>, t: State, b: seq<Event>, u: State)
    requires Runs(s, a, t) && Runs(t, b, u)
    ensures Runs(s, a + b, u)
    decreases |a|
  {
    if a == [] {
      assert a + b == b;
    } else {
      RunsJoin(Step(s, a[0]), a[1..], t, b, u);
      assert (a + b)[1..] == a[1..] + b;
    }
  }

  /** A commit acts on the tables alone; its own request is dropped. */
  lemma CommitReviewIs(s: State, open: map<int, Op>, op: int)
    requires op in open && open[op].Reviewing?
    ensures Enabled(s.(ops := open), CommitReview(op))
    ensures Step(s.(ops := open), CommitReview(op)) ==
            Reviewed(s, open[op].reg, open[op].decision).(ops := open - {op})
  {
  }

  lemma CommitChangeIs(s: State, open: map<int, Op>, op: int)
    requires op in open && open[op].Changing?
    ensures Enabled(s.(ops := open), CommitChange(op))
    ensures Step(s.(ops := open), CommitChange(op)) ==
            Changed(s, open[op].us, open[op].active, open[op].role).(ops := open - {op})
  {
  }

  lemma RunsOne(s: State, e: Event)
    requires Enabled(s, e)
    ensures Runs(s, [e], Step(s, e))
  {
    assert [e][1..] == [];
    assert Runs(Step(s, e), [], Step(s, e));
  }

  /** A review that nobody interrupts is a run of the machine. */
  lemma ReviewIsARun(s: State, reg: Id, decision: Status, op: int)
    requires ReviewOpen(s, reg) && decision != Pending && op !in s.ops
    ensures Runs(s, [BeginReview(op, reg, decision), CommitReview(op)], Reviewed(s, reg, decision))
  {
    CommitReviewIs(s, s.ops[op := Reviewing(reg, decision)], op);
    assert s.ops[op := Reviewing(reg, decision)] - {op} == s.ops == Reviewed(s, reg, decision).ops;
    RunsTwo(s, BeginReview(op, reg, decision), CommitReview(op));
  }

  /** So is a change that nobody interrupts. */
  lemma ChangeIsARun(s: State, us: set<Id>, active: Option<bool>, role: Option<int>, op: int)
    requires us <= s.users.Keys && (role.Some? ==> RoleAllowed(s, us, role.value)) && op !in s.ops
    ensures Runs(s, [BeginChange(op, us, active, role), CommitChange(op)], Changed(s, us, active, role))
  {
    CommitChangeIs(s, s.ops[op := Changing(us, active, role)], op);
    assert s.ops[op := Changing(us, active, role)] - {op} == s.ops == Changed(s, us, active, role).ops;
    RunsTwo(s, BeginChange(op, us, active, role), CommitChange(op));
  }

  /** Two admins who both found the registration open: the first to commit decides, the other changes nothing. */
  lemma TwoAdminsOneDecision(s: State, reg: Id, a: int, first: Status, b: int, second: Status)
    requires ReviewOpen(s, reg) && first != Pending && second != Pending
    requires a != b && a !in s.ops && b !in s.ops
    ensures Runs(s, [BeginReview(a, reg, first), BeginReview(b, reg, second)] + [CommitReview(a), CommitReview(b)],
                 Reviewed(s, reg, first))
  {
    var open := s.ops[a := Reviewing(reg, first)][b := Reviewing(reg, second)];
    RunsTwo(s, BeginReview(a, reg, first), BeginReview(b, reg, second));
    var decided := Reviewed(s, reg, first);
    ReviewDecides(s, reg, first);
    CommitReviewIs(s, open, a);
    CommitReviewIs(decided, open - {a}, b);
    assert open - {a} - {b} == s.ops == decided.ops;
    RunsTwo(s.(ops := open), CommitReview(a), CommitReview(b));
    RunsJoin(s, [BeginReview(a, reg, first), BeginReview(b, reg, second)], s.(ops := open),
             [CommitReview(a), CommitReview(b)], decided);
  }

  /** Two changes whose requests overlap are written one after the other. */
  lemma TwoChangesBothWritten(s: State, a: int, b: int, us: set<Id>, x: Option<bool>, y: Option<bool>)
    requires us <= s.users.Keys && a != b && a !in s.ops && b !in s.ops
    ensures Runs(s, [BeginChange(a, us, x, None), BeginChange(b, us, y, None)] + [CommitChange(a), CommitChange(b)],
                 Changed(Changed(s, us, x, None), us, y, None))
  {
    var open := s.ops[a := Changing(us, x, None)][b := Changing(us, y, None)];
    RunsTwo(s, BeginChange(a, us, x, None), BeginChange(b, us, y, None));
    var once := Changed(s, us, x, None);
    CommitChangeIs(s, open, a);
    CommitChangeIs(once, open - {a}, b);
    var twice := Changed(once, us, y, None);
    assert open - {a} - {b} == s.ops == twice.ops;
    RunsTwo(s.(ops := open), CommitChange(a), CommitChange(b));
    RunsJoin(s, [BeginChange(a, us, x, None), BeginChange(b, us, y, None)], s.(ops := open),
             [CommitChange(a), CommitChange(b)], twice);
  }
}
