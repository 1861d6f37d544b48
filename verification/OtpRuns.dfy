/**
 * Registrations, resends, guesses and expiry interleaved over one Redis. Register and resend
 * are split at their awaits (peek, claim the send, issue); each granted send is recorded in
 * a history with the code it issued and every answer given to a guess at that code.
 */
module OtpRuns {
  import opened Wrappers
  import opened Otp

  datatype Attempt = Attempt(at: int, reply: Reply)

  /** A code: where and when it was issued, and the guesses that found it, in order. */
  datatype Issue = Issue(handle: Handle, pending: Pending, hash: string, at: int, attempts: seq<Attempt>)

  /** A granted send; its code follows when the operation gets that far. */
  datatype Send = Send(email: Email, issue: Option<Issue>)

  datatype Op = Peeked(handle: Handle, pending: Pending) | Granted(handle: Handle, pending: Pending, send: nat)

  datatype State = State(
    now: int,
    records: Records,
    cooldowns: map<Email, int>,
    ops: map<nat, Op>,
    sends: seq<Send>,
    latest: map<Handle, nat>,
    releases: seq<Email>)

  function Init(now: int): State { State(now, map[], map[], map[], [], map[], []) }

  datatype Event =
    | Tick(seconds: nat)
    | RegisterClaim(op: nat, handle: Handle, pending: Pending)
    | Peek(op: nat, handle: Handle)
    | ResendClaim(op: nat)
    | IssueCode(op: nat, hash: string)
    | Crash(op: nat)
    | Verify(handle: Handle, given: string)
    | Release(email: Email)

  predicate Enabled(s: State, e: Event) {
    match e
    case Tick(_) => true
    case RegisterClaim(op, _, _) => op !in s.ops
    case Peek(op, _) => op !in s.ops
    case ResendClaim(op) => op in s.ops && s.ops[op].Peeked?
    case IssueCode(op, _) => op in s.ops && s.ops[op].Granted? && s.ops[op].send < |s.sends|
    case Crash(op) => op in s.ops
    case Verify(_, _) => true
    case Release(_) => true
  }

  predicate Cooling(s: State, email: Email) {
    email in s.cooldowns && s.now < s.cooldowns[email]
  }

  function Grant(s: State, op: nat, handle: Handle, pending: Pending): State {
    s.(cooldowns := s.cooldowns[pending.email := s.now + OTP_RESEND_COOLDOWN_SECONDS],
       ops := s.ops[op := Granted(handle, pending, |s.sends|)],
       sends := s.sends + [Send(pending.email, None)])
  }

  /** A guess that found a live code is entered under the handle's latest code. */
  function Recorded(s: State, handle: Handle, reply: Reply): seq<Send> {
    if handle in s.latest && s.latest[handle] < |s.sends|
       && s.sends[s.latest[handle]].issue.Some? && reply != NoKey then
      var n := s.latest[handle];
      var issue := s.sends[n].issue.value;
      s.sends[n := s.sends[n].(issue := Some(issue.(attempts := issue.attempts + [Attempt(s.now, reply)])))]
    else s.sends
  }

  function Step(s: State, e: Event): State
    requires Enabled(s, e)
  {
    match e
    case Tick(seconds) => s.(now := s.now + seconds)
    case RegisterClaim(op, handle, pending) => if Cooling(s, pending.email) then s else Grant(s, op, handle, pending)
    case Peek(op, handle) =>
      if Live(s.records, s.now, handle) && s.records[handle].payload.Some?
      then s.(ops := s.ops[op := Peeked(handle, s.records[handle].payload.value)])
      else s
    case ResendClaim(op) =>
      var Peeked(handle, pending) := s.ops[op];
      if Cooling(s, pending.email) then s.(ops := s.ops - {op}) else Grant(s, op, handle, pending)
    case IssueCode(op, hash) =>
      var Granted(handle, pending, n) := s.ops[op];
      s.(records := s.records[handle := Record(hash, 0, Some(pending), s.now + OTP_TTL_SECONDS)],
         ops := s.ops - {op},
         sends := s.sends[n := s.sends[n].(issue := Some(Issue(handle, pending, hash, s.now, [])))],
         latest := s.latest[handle := n])
    case Crash(op) => s.(ops := s.ops - {op})
    case Verify(handle, given) =>
      var (records, reply) := VerifyScript(s.records, s.now, handle, given);
      s.(records := records, sends := Recorded(s, handle, reply))
    case Release(email) => s.(cooldowns := s.cooldowns - {email}, releases := s.releases + [email])
  }

  ghost predicate Runs(s: State, events: seq<Event>, t: State)
    decreases |events|
  {
    if events == [] then s == t
    else Enabled(s, events[0]) && Runs(Step(s, events[0]), events[1..], t)
  }

  lemma {:induction false} RunsSnoc(s: State, events: seq<Event>, t: State, e: Event)
    requires Runs(s, events, t) && Enabled(t, e)
    ensures Runs(s, events + [e], Step(t, e))
    decreases |events|
  {
    if events == [] {
      assert [e][1..] == [];
      assert Runs(Step(t, e), [], Step(t, e));
    } else {
      RunsSnoc(Step(s, events[0]), events[1..], t, e);
      assert (events + [e])[1..] == events[1..] + [e];
    }
  }

  /* ---------- one code and its guesses ---------- */

  /** The answer that ends a code: released, or destroyed by the guess after the last. */
  predicate Final(reply: Reply) { reply.Match? || reply.Exhausted? }

  predicate Ended(issue: Issue) {
    issue.attempts != [] && Final(issue.attempts[|issue.attempts| - 1].reply)
  }

  /** Five wrong guesses at most, counted down to zero, and one final answer at most. */
  ghost predicate GoodIssue(issue: Issue) {
    && |issue.attempts| <= 6
    && (|issue.attempts| == 6 ==> issue.attempts[5].reply == Exhausted)
    && forall j | 0 <= j < |issue.attempts| ::
      && issue.at <= issue.attempts[j].at < issue.at + 600
      && match issue.attempts[j].reply
         case NoKey => false
         case Mismatch(remaining) => remaining == 5 - (j + 1)
         case Match(payload) => j == |issue.attempts| - 1 && payload == Some(issue.pending)
         case Exhausted => j == |issue.attempts| - 1 == 5
  }

  /** What a guess at the handle's latest code is answered, told from the history alone. */
  function Expected(issue: Issue, now: int, given: string): Reply {
    if Ended(issue) || now >= issue.at + 600 then NoKey
    else if |issue.attempts| == 5 then Exhausted
    else if given == issue.hash then Match(Some(issue.pending))
    else Mismatch(5 - (|issue.attempts| + 1))
  }

  /* ---------- the invariant ---------- */

  function LatestIssue(s: State, handle: Handle): Option<Issue> {
    if handle in s.latest && s.latest[handle] < |s.sends| then s.sends[s.latest[handle]].issue else None
  }

  /** Redis holds exactly the latest code of each handle, until that code has ended. */
  ghost predicate HandleInv(s: State, handle: Handle) {
    match LatestIssue(s, handle)
    case None => handle !in s.latest && handle !in s.records
    case Some(issue) =>
      && issue.handle == handle && issue.at <= s.now
      && (handle in s.records <==> !Ended(issue))
      && (handle in s.records ==>
            s.records[handle] == Record(issue.hash, |issue.attempts|, Some(issue.pending), issue.at + OTP_TTL_SECONDS))
  }

  ghost predicate SendInv(s: State, n: nat)
    requires n < |s.sends|
  {
    s.sends[n].issue.Some? ==>
      s.sends[n].issue.value.pending.email == s.sends[n].email && GoodIssue(s.sends[n].issue.value)
  }

  /** A granted operation owns a send whose code is still to come. */
  ghost predicate OpInv(s: State, op: nat)
    requires op in s.ops
  {
    s.ops[op].Granted? ==>
      && s.ops[op].send < |s.sends|
      && s.sends[s.ops[op].send] == Send(s.ops[op].pending.email, None)
      && forall other | other in s.ops && s.ops[other].Granted? && s.ops[other].send == s.ops[op].send :: other == op
  }

  ghost predicate Inv(s: State) {
    && (forall h :: HandleInv(s, h))
    && (forall n | 0 <= n < |s.sends| :: SendInv(s, n))
    && (forall op | op in s.ops :: OpInv(s, op))
  }

  lemma TickKeepsInv(s: State, seconds: nat)
    requires Inv(s)
    ensures Inv(Step(s, Tick(seconds)))
  {
    var t := Step(s, Tick(seconds));
    forall h ensures HandleInv(t, h) { assert HandleInv(s, h); }
    forall n | 0 <= n < |t.sends| ensures SendInv(t, n) { assert SendInv(s, n); }
    forall op | op in t.ops ensures OpInv(t, op) { assert OpInv(s, op); }
  }

  lemma GrantKeepsInv(s: State, op: nat, handle: Handle, pending: Pending)
    requires Inv(s) && (op in s.ops ==> s.ops[op].Peeked?)
    ensures Inv(Grant(s, op, handle, pending))
  {
    var t := Grant(s, op, handle, pending);
    forall h ensures HandleInv(t, h) {
      assert HandleInv(s, h);
      assert LatestIssue(t, h) == LatestIssue(s, h);
    }
    forall n | 0 <= n < |t.sends| ensures SendInv(t, n) {
      if n < |s.sends| { assert SendInv(s, n); }
    }
    forall o | o in t.ops ensures OpInv(t, o) {
      if o != op { assert OpInv(s, o); }
      forall other | other in s.ops && s.ops[other].Granted? ensures s.ops[other].send < |s.sends| {
        assert OpInv(s, other);
      }
    }
  }

  lemma IssueKeepsInv(s: State, op: nat, hash: string)
    requires Inv(s) && Enabled(s, IssueCode(op, hash))
    ensures Inv(Step(s, IssueCode(op, hash)))
  {
    var t := Step(s, IssueCode(op, hash));
    var n := s.ops[op].send;
    assert OpInv(s, op) && SendInv(s, n);
    forall h ensures HandleInv(t, h) {
      assert HandleInv(s, h);
      if h != s.ops[op].handle {
        assert LatestIssue(t, h) == LatestIssue(s, h);
      }
    }
    forall k | 0 <= k < |t.sends| ensures SendInv(t, k) {
      assert SendInv(s, k);
    }
    forall o | o in t.ops ensures OpInv(t, o) {
      assert OpInv(s, o);
    }
  }

  /** The script's answer to a guess is the one the history calls for. */
  lemma ReplyIsExpected(s: State, handle: Handle, given: string)
    requires HandleInv(s, handle)
    requires LatestIssue(s, handle).Some? ==> GoodIssue(LatestIssue(s, handle).value)
    ensures VerifyScript(s.records, s.now, handle, given).1 ==
            match LatestIssue(s, handle)
            case None => NoKey
            case Some(issue) => Expected(issue, s.now, given)
  {
  }

  lemma AttemptKeepsGood(issue: Issue, now: int, given: string)
    requires GoodIssue(issue) && issue.at <= now && Expected(issue, now, given) != NoKey
    ensures GoodIssue(issue.(attempts := issue.attempts + [Attempt(now, Expected(issue, now, given))]))
  {
    var next := issue.(attempts := issue.attempts + [Attempt(now, Expected(issue, now, given))]);
    var n := |issue.attempts|;
    assert n > 0 ==> !Final(issue.attempts[n - 1].reply);
    forall j | 0 <= j < n ensures next.attempts[j] == issue.attempts[j] && issue.attempts[j].reply.Mismatch? {
    }
  }

  lemma VerifyKeepsInv(s: State, handle: Handle, given: string)
    requires Inv(s)
    ensures Inv(Step(s, Verify(handle, given)))
  {
    var t := Step(s, Verify(handle, given));
    assert HandleInv(s, handle);
    if LatestIssue(s, handle).Some? {
      var n := s.latest[handle];
      var issue := s.sends[n].issue.value;
      assert SendInv(s, n);
      ReplyIsExpected(s, handle, given);
      var reply := Expected(issue, s.now, given);
      if reply != NoKey {
        AttemptKeepsGood(issue, s.now, given);
        VerifyKeepsOthers(s, handle, given);
      } else {
        assert t == s;
      }
    } else {
      assert t == s;
    }
  }

  lemma VerifyKeepsOthers(s: State, handle: Handle, given: string)
    requires Inv(s) && LatestIssue(s, handle).Some?
    requires var issue := LatestIssue(s, handle).value;
             var reply := VerifyScript(s.records, s.now, handle, given).1;
             && reply != NoKey && reply == Expected(issue, s.now, given)
             && GoodIssue(issue.(attempts := issue.attempts + [Attempt(s.now, reply)]))
    ensures Inv(Step(s, Verify(handle, given)))
  {
    var t := Step(s, Verify(handle, given));
    var n := s.latest[handle];
    forall h ensures HandleInv(t, h) {
      assert HandleInv(s, h) && HandleInv(s, handle);
      if h != handle {
        assert LatestIssue(t, h) == LatestIssue(s, h);
      }
    }
    forall k | 0 <= k < |t.sends| ensures SendInv(t, k) {
      assert SendInv(s, k);
    }
    forall o | o in t.ops ensures OpInv(t, o) {
      assert OpInv(s, o);
    }
  }

  lemma OtherKeepsInv(s: State, e: Event)
    requires Inv(s) && Enabled(s, e)
    requires (e.Peek? || e.Crash? || e.Release? || (e.ResendClaim? && Cooling(s, s.ops[e.op].pending.email)))
    ensures Inv(Step(s, e))
  {
    var t := Step(s, e);
    forall h ensures HandleInv(t, h) {
      assert HandleInv(s, h);
    }
    forall n | 0 <= n < |t.sends| ensures SendInv(t, n) {
      assert SendInv(s, n);
    }
    forall o | o in t.ops ensures OpInv(t, o) {
      if o in s.ops { assert OpInv(s, o); }
    }
  }

  lemma StepKeepsInv(s: State, e: Event)
    requires Inv(s) && Enabled(s, e)
    ensures Inv(Step(s, e))
  {
    match e
    case Tick(seconds) => TickKeepsInv(s, seconds);
    case RegisterClaim(op, handle, pending) =>
      if !Cooling(s, pending.email) { GrantKeepsInv(s, op, handle, pending); }
    case ResendClaim(op) =>
      if Cooling(s, s.ops[op].pending.email) {
        OtherKeepsInv(s, e);
      } else {
        GrantKeepsInv(s, op, s.ops[op].handle, s.ops[op].pending);
      }
    case IssueCode(op, hash) => IssueKeepsInv(s, op, hash);
    case Verify(handle, given) => VerifyKeepsInv(s, handle, given);
    case Peek(_, _) => OtherKeepsInv(s, e);
    case Crash(_) => OtherKeepsInv(s, e);
    case Release(_) => OtherKeepsInv(s, e);
  }

  lemma {:induction false} RunKeepsInv(s: State, events: seq<Event>, t: State)
    requires Inv(s) && Runs(s, events, t)
    ensures Inv(t)
    decreases |events|
  {
    if events != [] {
      StepKeepsInv(s, events[0]);
      RunKeepsInv(Step(s, events[0]), events[1..], t);
    }
  }

  /* ---------- what every run keeps ---------- */

  /**
   * In every reachable state a guess is answered from the handle's latest code alone: nothing
   * after its ten minutes, its release or its exhaustion; else the countdown from five.
   */
  lemma GuessAnsweredFromHistory(start: int, events: seq<Event>, s: State, handle: Handle, given: string)
    requires Runs(Init(start), events, s)
    ensures VerifyScript(s.records, s.now, handle, given).1 ==
            match LatestIssue(s, handle)
            case None => NoKey
            case Some(issue) => Expected(issue, s.now, given)
  {
    RunKeepsInv(Init(start), events, s);
    assert HandleInv(s, handle);
    if LatestIssue(s, handle).Some? {
      assert SendInv(s, s.latest[handle]);
    }
    ReplyIsExpected(s, handle, given);
  }

  /**
   * In every reachable state a look at the pending registration finds the form that was held
   * with the handle's latest code, until that code expires, is released or is destroyed.
   */
  lemma PeekFindsLatest(start: int, events: seq<Event>, s: State, handle: Handle)
    requires Runs(Init(start), events, s)
    ensures (if Live(s.records, s.now, handle) then s.records[handle].payload else None) ==
            match LatestIssue(s, handle)
            case None => None
            case Some(issue) =>
              if Ended(issue) || s.now >= issue.at + 600 then None else Some(issue.pending)
  {
    RunKeepsInv(Init(start), events, s);
    assert HandleInv(s, handle);
  }

  /** In every reachable state a resend gets past its peek exactly when the handle's latest code is live. */
  lemma ResendNeedsLiveCode(start: int, events: seq<Event>, s: State, op: nat, handle: Handle)
    requires Runs(Init(start), events, s) && op !in s.ops
    ensures op in Step(s, Peek(op, handle)).ops <==>
            match LatestIssue(s, handle)
            case None => false
            case Some(issue) => !Ended(issue) && s.now < issue.at + 600
  {
    RunKeepsInv(Init(start), events, s);
    assert HandleInv(s, handle);
  }

  /** A granted send whose operation is gone: no operation or handle points at it, and it has no code. */
  ghost predicate Lost(s: State, n: nat) {
    && n < |s.sends| && s.sends[n].issue.None?
    && (forall op | op in s.ops && s.ops[op].Granted? :: s.ops[op].send != n)
    && (forall h | h in s.latest :: s.latest[h] != n)
  }

  lemma LostStep(s: State, e: Event, n: nat)
    requires Lost(s, n) && Enabled(s, e)
    ensures Lost(Step(s, e), n)
  {
  }

  lemma {:induction false} LostRun(s: State, events: seq<Event>, t: State, n: nat)
    requires Lost(s, n) && Runs(s, events, t)
    ensures Lost(t, n)
    decreases |events|
  {
    if events != [] {
      LostStep(s, events[0], n);
      LostRun(Step(s, events[0]), events[1..], t, n);
    }
  }

  /** A registration or resend that crashes after its claim spends the cooldown and never issues a code. */
  lemma CrashedIssuesNothing(start: int, before: seq<Event>, s: State, op: nat, after: seq<Event>, t: State)
    requires Runs(Init(start), before, s) && op in s.ops && s.ops[op].Granted?
    requires Runs(Step(s, Crash(op)), after, t)
    ensures Lost(t, s.ops[op].send)
  {
    RunKeepsInv(Init(start), before, s);
    assert OpInv(s, op);
    var n := s.ops[op].send;
    forall h | h in s.latest ensures s.latest[h] != n { assert HandleInv(s, h); }
    LostRun(Step(s, Crash(op)), after, t, n);
  }

  /** A guess whose code was compared with the stored one. */
  function Comparisons(attempts: seq<Attempt>): nat {
    if attempts == [] then 0
    else
      var n := |attempts| - 1;
      Comparisons(attempts[..n]) + (if attempts[n].reply == Exhausted then 0 else 1)
  }

  lemma {:induction false} ComparisonsBounded(attempts: seq<Attempt>)
    ensures Comparisons(attempts) <= |attempts|
  {
    if attempts != [] {
      ComparisonsBounded(attempts[..|attempts| - 1]);
    }
  }

  lemma GoodIssueComparisons(issue: Issue)
    requires GoodIssue(issue)
    ensures Comparisons(issue.attempts) <= 5
  {
    var n := |issue.attempts|;
    ComparisonsBounded(issue.attempts);
    if n == 6 {
      ComparisonsBounded(issue.attempts[..n - 1]);
    }
  }

  /** Per code: five comparisons, the countdown, and one release of exactly what was stored. */
  lemma GuessesPerCode(start: int, events: seq<Event>, s: State, n: nat)
    requires Runs(Init(start), events, s)
    requires n < |s.sends| && s.sends[n].issue.Some?
    ensures var issue := s.sends[n].issue.value;
            && Comparisons(issue.attempts) <= 5
            && forall j | 0 <= j < |issue.attempts| ::
                 && (issue.attempts[j].reply.Mismatch? ==>
                       issue.attempts[j].reply.remaining == 5 - (j + 1))
                 && (issue.attempts[j].reply.Match? ==>
                       && issue.attempts[j].reply.payload == Some(issue.pending)
                       && j == |issue.attempts| - 1
                       && issue.at <= issue.attempts[j].at < issue.at + 600)
  {
    RunKeepsInv(Init(start), events, s);
    assert SendInv(s, n);
    GoodIssueComparisons(s.sends[n].issue.value);
  }

  /* ---------- the run-wide bound ---------- */

  /** All comparisons made against codes for one address, over every registration handle. */
  function TotalComparisons(sends: seq<Send>, email: Email): nat {
    if sends == [] then 0
    else
      var n := |sends| - 1;
      TotalComparisons(sends[..n], email)
      + (if sends[n].email == email && sends[n].issue.Some? then Comparisons(sends[n].issue.value.attempts) else 0)
  }

  function SendCount(sends: seq<Send>, email: Email): nat {
    if sends == [] then 0
    else SendCount(sends[..|sends| - 1], email) + (if sends[|sends| - 1].email == email then 1 else 0)
  }

  lemma {:induction false} FivePerSend(sends: seq<Send>, email: Email)
    requires forall n | 0 <= n < |sends| && sends[n].issue.Some? :: GoodIssue(sends[n].issue.value)
    ensures TotalComparisons(sends, email) <= 5 * SendCount(sends, email)
  {
    if sends != [] {
      var n := |sends| - 1;
      FivePerSend(sends[..n], email);
      if sends[n].issue.Some? {
        GoodIssueComparisons(sends[n].issue.value);
      }
    }
  }

  lemma {:induction false} SendCountUpdate(sends: seq<Send>, n: nat, send: Send, email: Email)
    requires n < |sends| && sends[n].email == send.email
    ensures SendCount(sends[n := send], email) == SendCount(sends, email)
  {
    var m := |sends| - 1;
    if n == m {
      assert sends[n := send][..m] == sends[..m];
    } else {
      assert sends[n := send][..m] == sends[..m][n := send];
      SendCountUpdate(sends[..m], n, send, email);
    }
  }

  /**
   * Sends granted for an address, less those handed back, are paced one per cooldown: the
   * last one stands at the key's expiry less the cooldown.
   */
  ghost predicate Paced(s: State, start: int, email: Email) {
    var net := SendCount(s.sends, email) - multiset(s.releases)[email];
    if email in s.cooldowns
    then OTP_RESEND_COOLDOWN_SECONDS * net <= s.cooldowns[email] - start
         && s.cooldowns[email] <= s.now + OTP_RESEND_COOLDOWN_SECONDS
    else OTP_RESEND_COOLDOWN_SECONDS * net <= s.now - start
  }

  lemma GrantKeepsPace(s: State, start: int, op: nat, handle: Handle, pending: Pending, email: Email)
    requires Paced(s, start, email) && !Cooling(s, pending.email)
    ensures Paced(Grant(s, op, handle, pending), start, email)
  {
    assert Grant(s, op, handle, pending).sends[..|s.sends|] == s.sends;
  }

  lemma StepKeepsPace(s: State, start: int, e: Event, email: Email)
    requires Paced(s, start, email) && Enabled(s, e)
    ensures Paced(Step(s, e), start, email)
  {
    match e
    case RegisterClaim(op, handle, pending) =>
      if !Cooling(s, pending.email) { GrantKeepsPace(s, start, op, handle, pending, email); }
    case ResendClaim(op) =>
      if !Cooling(s, s.ops[op].pending.email) {
        GrantKeepsPace(s, start, op, s.ops[op].handle, s.ops[op].pending, email);
      }
    case IssueCode(op, hash) =>
      var Granted(handle, pending, n) := s.ops[op];
      SendCountUpdate(s.sends, n, Step(s, e).sends[n], email);
    case Verify(handle, given) =>
      if Step(s, e).sends != s.sends {
        var n := s.latest[handle];
        SendCountUpdate(s.sends, n, Step(s, e).sends[n], email);
      }
    case Release(released) =>
      assert (s.releases + [released])[..|s.releases|] == s.releases;
    case Tick(_) =>
    case Peek(_, _) =>
    case Crash(_) =>
  }

  lemma {:induction false} RunKeepsPace(s: State, start: int, events: seq<Event>, t: State, email: Email)
    requires Paced(s, start, email) && Runs(s, events, t)
    ensures Paced(t, start, email)
    decreases |events|
  {
    if events != [] {
      StepKeepsPace(s, start, events[0], email);
      RunKeepsPace(Step(s, events[0]), start, events[1..], t, email);
    }
  }

  /** Five guesses for each send, and a send for each started cooldown or handed-back send. */
  lemma RunWideGuessBound(start: int, events: seq<Event>, s: State, email: Email)
    requires Runs(Init(start), events, s)
    ensures TotalComparisons(s.sends, email) <=
            5 * ((s.now - start) / 60 + 1 + multiset(s.releases)[email])
  {
    RunKeepsInv(Init(start), events, s);
    forall n | 0 <= n < |s.sends| && s.sends[n].issue.Some? ensures GoodIssue(s.sends[n].issue.value) {
      assert SendInv(s, n);
    }
    FivePerSend(s.sends, email);
    RunKeepsPace(Init(start), start, events, s, email);
  }

  /** With no send handed back: five guesses for each started minute of the run. */
  lemma GuessBoundWithoutRelease(start: int, events: seq<Event>, s: State, email: Email)
    requires Runs(Init(start), events, s)
    requires email !in s.releases
    ensures TotalComparisons(s.sends, email) <= 5 * ((s.now - start) / 60 + 1)
  {
    RunWideGuessBound(start, events, s, email);
  }

  /* ---------- the bound is reached ---------- */

  /** `t` is `s` with one more send to the address: a code with `k` wrong guesses at it, all at once. */
  ghost predicate RoundOf(s: State, t: State, handle: Handle, pending: Pending, hash: string, k: nat) {
    && t.now == s.now && t.ops == map[] && t.releases == s.releases
    && t.cooldowns == s.cooldowns[pending.email := s.now + 60]
    && t.latest == s.latest[handle := |s.sends|]
    && t.records == s.records[handle := Record(hash, k, Some(pending), s.now + 600)]
    && |t.sends| == |s.sends| + 1 && t.sends[..|s.sends|] == s.sends
    && t.sends[|s.sends|].email == pending.email && t.sends[|s.sends|].issue.Some?
    && |t.sends[|s.sends|].issue.value.attempts| == k == Comparisons(t.sends[|s.sends|].issue.value.attempts)
  }

  lemma CodeSent(init: State, before: seq<Event>, s: State, handle: Handle, pending: Pending, hash: string)
    returns (events: seq<Event>, t: State)
    requires Runs(init, before, s) && !Cooling(s, pending.email) && s.ops == map[]
    ensures Runs(init, events, t) && RoundOf(s, t, handle, pending, hash, 0)
  {
    RunsSnoc(init, before, s, RegisterClaim(0, handle, pending));
    var granted := Step(s, RegisterClaim(0, handle, pending));
    assert granted.sends[|s.sends|] == Send(pending.email, None);
    assert granted.ops[0] == Granted(handle, pending, |s.sends|);
    RunsSnoc(init, before + [RegisterClaim(0, handle, pending)], granted, IssueCode(0, hash));
    events := before + [RegisterClaim(0, handle, pending)] + [IssueCode(0, hash)];
    t := Step(granted, IssueCode(0, hash));
  }

  lemma WrongGuess(s: State, t: State, handle: Handle, pending: Pending, hash: string, wrong: string, k: nat)
    requires RoundOf(s, t, handle, pending, hash, k) && k < 5 && wrong != hash
    ensures RoundOf(s, Step(t, Verify(handle, wrong)), handle, pending, hash, k + 1)
  {
    var n := |s.sends|;
    var u := Step(t, Verify(handle, wrong));
    var attempts := t.sends[n].issue.value.attempts;
    assert VerifyScript(t.records, t.now, handle, wrong).1 == Mismatch(5 - (k + 1));
    assert u.sends[n].issue.value.attempts == attempts + [Attempt(s.now, Mismatch(5 - (k + 1)))];
    assert u.sends[n].issue.value.attempts[..k] == attempts;
    assert u.sends[..n] == t.sends[..n];
  }

  lemma {:induction false} Round(init: State, before: seq<Event>, s: State, handle: Handle, pending: Pending,
                                 hash: string, wrong: string, k: nat)
    returns (events: seq<Event>, t: State)
    requires Runs(init, before, s) && !Cooling(s, pending.email) && s.ops == map[]
    requires k <= 5 && wrong != hash
    ensures Runs(init, events, t) && RoundOf(s, t, handle, pending, hash, k)
  {
    if k == 0 {
      events, t := CodeSent(init, before, s, handle, pending, hash);
    } else {
      events, t := Round(init, before, s, handle, pending, hash, wrong, k - 1);
      WrongGuess(s, t, handle, pending, hash, wrong, k - 1);
      RunsSnoc(init, events, t, Verify(handle, wrong));
      events, t := events + [Verify(handle, wrong)], Step(t, Verify(handle, wrong));
    }
  }

  lemma OneMoreSend(sends: seq<Send>, more: seq<Send>, email: Email)
    requires |more| == |sends| + 1 && more[..|sends|] == sends
    requires more[|sends|].email == email && more[|sends|].issue.Some?
    ensures TotalComparisons(more, email) ==
            TotalComparisons(sends, email) + Comparisons(more[|sends|].issue.value.attempts)
  {
  }

  /** The bound is exact: for every number of minutes some run makes that many comparisons. */
  lemma {:induction false} BoundIsReached(start: int, handle: Handle, pending: Pending, hash: string, wrong: string,
                                          minutes: nat)
    returns (events: seq<Event>, s: State)
    requires wrong != hash
    ensures Runs(Init(start), events, s) && s.now == start + 60 * minutes && s.releases == [] && s.ops == map[]
    ensures s.cooldowns == map[pending.email := s.now + 60]
    ensures TotalComparisons(s.sends, pending.email) == 5 * (minutes + 1)
  {
    var before: State;
    if minutes == 0 {
      events, before := [], Init(start);
    } else {
      events, before := BoundIsReached(start, handle, pending, hash, wrong, minutes - 1);
      RunsSnoc(Init(start), events, before, Tick(60));
      events, before := events + [Tick(60)], Step(before, Tick(60));
    }
    events, s := Round(Init(start), events, before, handle, pending, hash, wrong, 5);
    OneMoreSend(before.sends, s.sends, pending.email);
  }
}
