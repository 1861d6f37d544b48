/**
 * The four paths that write accounts, statement by statement, over the tables they share.
 * Each commits one transaction and keeps the identity and review invariants of Accounts.
 */
module AccountService {
  import opened Wrappers
  import opened Sequences
  import opened Accounts

  /** The rows a look-up by id finds: one for each id that exists. */
  function Found(ids: seq<Id>, known: set<Id>): set<Id> {
    set u | u in ids && u in known
  }

  /** Looking ids up yields as many rows as were asked for iff all exist and none repeats. */
  lemma {:induction false} LookupCount(ids: seq<Id>, known: set<Id>)
    ensures |Found(ids, known)| <= |ids|
    ensures |Found(ids, known)| == |ids| <==> (forall u | u in ids :: u in known) && Distinct(ids)
  {
    if ids != [] {
      var n := |ids| - 1;
      var init := ids[..n];
      LookupCount(init, known);
      assert ids == init + [ids[n]];
      DistinctSnoc(init, ids[n]);
      if ids[n] in known && ids[n] !in init {
        assert Found(ids, known) == Found(init, known) + {ids[n]};
      } else {
        assert Found(ids, known) == Found(init, known);
      }
    }
  }

  /** An approval adds one company and one login, linked to each other. */
  lemma ApprovalAddsOne(s: State, reg: Id)
    requires Inv(s) && ReviewOpen(s, reg)
    ensures var t := Reviewed(s, reg, Approved);
            && reg in t.made && Linked(t, t.made[reg])
            && t.companies.Keys - s.companies.Keys == {t.made[reg].company}
            && t.users.Keys - s.users.Keys == {t.made[reg].user}
  {
  }

  lemma LastWriteStays<T>(table: map<Id, T>, id: Id, first: T, last: T)
    ensures table[id := first][id := last] == table[id := last]
  {
  }

  /** The six statements of an approval, after the claim. */
  method CreateEmployer(ghost s: State, claimed: State, reg: Id) returns (tx: State)
    requires ReviewOpen(s, reg) && claimed == s.(regs := s.regs[reg := Approved])
    ensures tx == Reviewed(s, reg, Approved)
  {
    var p, c, u := claimed.nextPerson, claimed.nextCompany, claimed.nextUser;
    tx := claimed.(persons := claimed.persons[p := Person(None)], nextPerson := p + 1);
    tx := tx.(companies := tx.companies[c := Company(None)], nextCompany := c + 1);
    tx := tx.(users := tx.users[u := Login(Some(p), None, true)], nextUser := u + 1,
              born := tx.born[u := PersonRow(p)]);
    tx := tx.(roles := tx.roles[u := CLIENT]);
    tx := tx.(companies := tx.companies[c := Company(Some(u))]);
    tx := tx.(persons := tx.persons[p := Person(Some(c))]);
    LastWriteStays(claimed.persons, p, Person(None), Person(Some(c)));
    LastWriteStays(claimed.companies, c, Company(None), Company(Some(u)));
    tx := tx.(made := tx.made[reg := Made(p, c, u)]);
  }

  /** The three statements of a staff login. */
  method CreatePersonLogin(s: State, role: int) returns (tx: State)
    ensures tx == WithPersonLogin(s, role, None)
  {
    var p, u := s.nextPerson, s.nextUser;
    tx := s.(persons := s.persons[p := Person(None)], nextPerson := p + 1);
    tx := tx.(users := tx.users[u := Login(Some(p), None, true)], nextUser := u + 1,
              born := tx.born[u := PersonRow(p)]);
    tx := tx.(roles := tx.roles[u := role]);
  }

  class AccountService {
    var db: State

    constructor ()
      ensures db == INIT && Inv(db)
    {
      db := INIT;
    }

    /** The transaction of a verified registration. */
    method CreateCandidate() returns (userID: Id)
      requires Inv(db)
      modifies this
      ensures Inv(db) && db == WithCandidate(old(db)) && userID == old(db).nextUser
      ensures Runs(old(db), [RegisterCandidate], db)
      // A CV row and a login that both ids of which name it, with the candidate role; no row changes.
      ensures userID !in old(db).users && db.roles == old(db).roles[userID := 1]
      ensures userID in db.users && db.users == old(db).users[userID := db.users[userID]]
      ensures var login := db.users[userID];
              && login.active && login.subscriberID.Some? && login.nodeID == login.subscriberID
              && login.subscriberID.value !in old(db).cvs
              && db.cvs == old(db).cvs + {login.subscriberID.value}
      ensures db.persons == old(db).persons && db.companies == old(db).companies && db.regs == old(db).regs
    {
      CandidateKeepsInv(db);
      RunsOne(db, RegisterCandidate);
      var tx := db;
      var sid := tx.nextSubscriber;
      tx := tx.(cvs := tx.cvs + {sid}, nextSubscriber := sid + 1);
      userID := tx.nextUser;
      tx := tx.(users := tx.users[userID := Login(Some(sid), Some(sid), true)], nextUser := userID + 1,
                born := tx.born[userID := CvRow(sid)]);
      tx := tx.(roles := tx.roles[userID := SUBSCRIBER]);
      db := tx;
    }

    method CreateStaffLogin(role: int, nameTaken: bool) returns (userID: Option<Id>)
      requires Inv(db) && role in {2, 3, 5, 7}
      modifies this
      ensures Inv(db)
      ensures nameTaken ==> userID == None && db == old(db)
      ensures !nameTaken ==> Runs(old(db), [CreateStaff(role)], db)
      ensures !nameTaken ==> userID == Some(old(db).nextUser) && db == WithPersonLogin(old(db), role, None)
      // A person row of no company and a login that names it, with the role asked for; no row changes.
      ensures !nameTaken ==>
                var u := userID.value;
                && u !in old(db).users && db.roles == old(db).roles[u := role]
                && u in db.users && db.users == old(db).users[u := db.users[u]]
                && db.users[u].active && db.users[u].subscriberID.None? && db.users[u].nodeID.Some?
                && db.users[u].nodeID.value !in old(db).persons
                && db.persons == old(db).persons[db.users[u].nodeID.value := Person(None)]
                && db.cvs == old(db).cvs && db.companies == old(db).companies && db.regs == old(db).regs
    {
      if nameTaken {
        return None;
      }
      StaffKeepsInv(db, role);
      RunsOne(db, CreateStaff(role));
      userID := Some(db.nextUser);
      db := CreatePersonLogin(db, role);
    }

    /** An employer's registration waits for review; `taken` stands for the look-up of its address. */
    method RegisterEmployer(reg: Id, taken: bool) returns (ok: bool)
      requires Inv(db) && reg !in db.regs
      modifies this
      ensures Inv(db) && ok == !taken
      ensures ok ==> Runs(old(db), [Submit(reg)], db) && db == old(db).(regs := old(db).regs[reg := Pending])
      ensures !ok ==> db == old(db)
    {
      if taken {
        return false;
      }
      RegistrationKeepsInv(db, reg, Pending);
      RunsOne(db, Submit(reg));
      db := db.(regs := db.regs[reg := Pending]);
      ok := true;
    }

    /** `clash` and `cityKnown` stand for the look-ups an approval makes before it commits. */
    method ReviewEmployer(reg: Id, decision: Status, clash: bool, cityKnown: bool) returns (ok: bool)
      requires Inv(db) && decision != Pending
      modifies this
      ensures Inv(db)
      ensures ok <==> ReviewOpen(old(db), reg) && (decision == Approved ==> !clash && cityKnown)
      ensures db == if ok then Reviewed(old(db), reg, decision) else old(db)
      ensures ok && decision == Approved ==>
                reg in db.made && Linked(db, db.made[reg])
                && db.companies.Keys - old(db).companies.Keys == {db.made[reg].company}
                && db.users.Keys - old(db).users.Keys == {db.made[reg].user}
      // The decision is written as taken; an approval adds its four rows and changes no other.
      ensures ok ==> db.regs == old(db).regs[reg := decision]
      ensures ok && decision == Approved ==>
                var m := db.made[reg];
                && db.companies == old(db).companies[m.company := Company(Some(m.user))]
                && db.persons == old(db).persons[m.person := Person(Some(m.company))]
                && db.users == old(db).users[m.user := Login(Some(m.person), None, true)]
                && db.roles == old(db).roles[m.user := 4]
                && m.person !in old(db).persons && db.cvs == old(db).cvs
      ensures ok && decision == Rejected ==>
                && db.users == old(db).users && db.roles == old(db).roles && db.persons == old(db).persons
                && db.companies == old(db).companies && db.cvs == old(db).cvs && db.made == old(db).made
      ensures !(ok && decision == Approved) ==> db.users == old(db).users && db.companies == old(db).companies
    {
      if !ReviewOpen(db, reg) || (decision == Approved && (clash || !cityKnown)) {
        return false;
      }
      ReviewKeepsInv(db, reg, decision);
      ReviewDecides(db, reg, decision);
      var tx := db.(regs := db.regs[reg := decision]);
      if decision == Approved {
        ApprovalAddsOne(db, reg);
        tx := CreateEmployer(db, tx, reg);
      }
      db := tx;
      ok := true;
    }

    method ApplyUserChanges(userIds: seq<Id>, active: Option<bool>, role: Option<int>) returns (ok: bool)
      requires Inv(db)
      modifies this
      ensures Inv(db)
      ensures ok <==>
              && (forall u | u in userIds :: u in old(db).users) && Distinct(userIds)
              && (role.Some? ==>
                    && 1 <= role.value <= 7
                    && (forall u | u in userIds && u in old(db).users ::
                          && (old(db).users[u].subscriberID.Some? <==> role.value == 1)
                          && (u in old(db).roles && old(db).roles[u] == 4 <==> role.value == 4)))
      ensures db == if ok then Changed(old(db), (set u | u in userIds), active, role) else old(db)
      ensures ok ==> Written(old(db), db, (set u | u in userIds), active, role)
    {
      var us := set u | u in userIds;
      LookupCount(userIds, db.users.Keys);
      if |Found(userIds, db.users.Keys)| != |userIds| {
        return false;
      }
      forall u | u in userIds ensures u in db.users {
        assert u in db.users.Keys;
      }
      assert us <= db.users.Keys;
      if role.Some? && !RoleAllowed(db, us, role.value) {
        return false;
      }
      ChangeKeepsInv(db, us, active, role);
      ChangeWrites(db, us, active, role);
      db := Changed(db, us, active, role);
      ok := true;
    }
  }
}
