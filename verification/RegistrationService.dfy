/**
 * Registering, resending and verifying, run without interruption over the one-time-code
 * service. Each call is a run of the machine in OtpRuns, so what every run keeps, and the
 * bound on guesses above all, holds between calls.
 */
module RegistrationService {
  import opened Wrappers
  import opened Otp
  import opened OtpRuns

  datatype Outcome = Unknown | Wait(seconds: int) | MailFailed | Sent

  class RegistrationService {
    const otp: OtpService
    ghost var ops: map<nat, Op>
    ghost var sends: seq<Send>
    ghost var latest: map<Handle, nat>
    ghost var releases: seq<Email>

    constructor (now: int)
      ensures View() == Init(now) && fresh(otp)
    {
      otp := new OtpService(now);
      ops, sends, latest, releases := map[], [], map[], [];
    }

    ghost function View(): State
      reads this, otp
    {
      State(otp.now, otp.records, otp.cooldowns, ops, sends, latest, releases)
    }

    /** Claim the right to send to an address; a send that is granted is entered in the history. */
    method Claim(handle: Handle, pending: Pending, ghost op: nat) returns (wait: int)
      modifies this, otp
      ensures wait >= 0 && (wait > 0 <==> Cooling(old(View()), pending.email))
      ensures wait > 0 ==> View() == old(View()) && otp.now + wait == otp.cooldowns[pending.email]
      ensures wait == 0 ==> View() == Grant(old(View()), op, handle, pending)
    {
      wait := otp.ClaimSend(pending.email);
      if wait == 0 {
        ops := ops[op := Granted(handle, pending, |sends|)];
        sends := sends + [Send(pending.email, None)];
      }
    }

    /** Issue the code of a granted send, mail it, and hand the send back when mailing fails. */
    method Deliver(handle: Handle, pending: Pending, hash: string, mailed: bool, ghost op: nat,
                   ghost s: State, ghost before: seq<Event>)
      returns (outcome: Outcome, ghost events: seq<Event>)
      requires |sends| > 0 && op in ops && ops[op] == Granted(handle, pending, |sends| - 1)
      requires Runs(s, before, View())
      modifies this, otp
      ensures Runs(s, events, View()) && otp.now == old(otp.now) && ops == old(ops) - {op}
      ensures outcome == if mailed then Sent else MailFailed
      ensures otp.records == old(otp.records)[handle := Record(hash, 0, Some(pending), otp.now + 600)]
      ensures otp.cooldowns == if mailed then old(otp.cooldowns) else old(otp.cooldowns) - {pending.email}
    {
      RunsSnoc(s, before, View(), IssueCode(op, hash));
      events := before + [IssueCode(op, hash)];
      otp.Issue(handle, hash, Some(pending));
      ghost var n := |sends| - 1;
      ops := ops - {op};
      sends := sends[n := sends[n].(issue := Some(Issue(handle, pending, hash, otp.now, [])))];
      latest := latest[handle := n];

      if mailed {
        return Sent, events;
      }
      RunsSnoc(s, events, View(), Release(pending.email));
      events := events + [Release(pending.email)];
      otp.ReleaseSend(pending.email);
      releases := releases + [pending.email];
      outcome := MailFailed;
    }

    method Register(handle: Handle, pending: Pending, hash: string, mailed: bool, ghost op: nat)
      returns (outcome: Outcome, ghost events: seq<Event>)
      requires op !in ops
      modifies this, otp
      ensures Runs(old(View()), events, View()) && otp.now == old(otp.now) && ops == old(ops)
      ensures outcome.Wait? <==> Cooling(old(View()), pending.email)
      ensures outcome.Wait? ==>
                && View() == old(View()) && outcome.seconds > 0
                && otp.now + outcome.seconds == otp.cooldowns[pending.email]
      ensures !outcome.Wait? ==>
                && outcome == (if mailed then Sent else MailFailed)
                && otp.records == old(otp.records)[handle := Record(hash, 0, Some(pending), otp.now + 600)]
                && otp.cooldowns == (if mailed
                                     then old(otp.cooldowns)[pending.email := otp.now + 60]
                                     else old(otp.cooldowns) - {pending.email})
    {
      events := [];
      var wait := Claim(handle, pending, op);
      if wait > 0 {
        return Wait(wait), [];
      }
      RunsSnoc(old(View()), [], old(View()), RegisterClaim(op, handle, pending));
      events := [] + [RegisterClaim(op, handle, pending)];
      outcome, events := Deliver(handle, pending, hash, mailed, op, old(View()), events);
    }

    method Resend(handle: Handle, hash: string, mailed: bool, ghost op: nat)
      returns (outcome: Outcome, ghost events: seq<Event>)
      requires op !in ops
      modifies this, otp
      ensures Runs(old(View()), events, View()) && otp.now == old(otp.now) && ops == old(ops)
      ensures outcome.Unknown? <==>
              !(Live(old(otp.records), otp.now, handle) && old(otp.records)[handle].payload.Some?)
      ensures outcome.Unknown? || outcome.Wait? ==> View() == old(View())
      ensures !outcome.Unknown? ==>
                var pending := old(otp.records)[handle].payload.value;
                && (outcome.Wait? <==> Cooling(old(View()), pending.email))
                && (outcome.Wait? ==>
                      outcome.seconds > 0 && otp.now + outcome.seconds == otp.cooldowns[pending.email])
                && (!outcome.Wait? ==>
                      // The new code carries the form the old one carried, and counts from zero.
                      && outcome == (if mailed then Sent else MailFailed)
                      && otp.records ==
                         old(otp.records)[handle := Record(hash, 0, Some(pending), otp.now + 600)]
                      && otp.cooldowns ==
                         (if mailed then old(otp.cooldowns)[pending.email := otp.now + 60]
                          else old(otp.cooldowns) - {pending.email}))
    {
      events := [];
      var payload := otp.PeekPayload(handle);
      if payload.None? {
        return Unknown, [];
      }
      var pending := payload.value;
      RunsSnoc(old(View()), [], old(View()), Peek(op, handle));
      events := [] + [Peek(op, handle)];
      ops := ops[op := Peeked(handle, pending)];

      RunsSnoc(old(View()), events, View(), ResendClaim(op));
      var wait := Claim(handle, pending, op);
      events := events + [ResendClaim(op)];
      if wait > 0 {
        ops := ops - {op};
        assert ops == old(ops);
        return Wait(wait), events;
      }
      outcome, events := Deliver(handle, pending, hash, mailed, op, old(View()), events);
    }

    /** The answer to a guess; on a match the pending registration is released, once. */
    method VerifyEmail(handle: Handle, given: string) returns (reply: Reply, ghost events: seq<Event>)
      modifies this, otp
      ensures Runs(old(View()), events, View()) && otp.now == old(otp.now) && ops == old(ops)
      ensures (otp.records, reply) == VerifyScript(old(otp.records), otp.now, handle, given)
      ensures otp.cooldowns == old(otp.cooldowns)
      ensures reply.Match? || reply.Exhausted? ==> VerifyScript(otp.records, otp.now, handle, given).1 == NoKey
    {
      RunsSnoc(old(View()), [], old(View()), Event.Verify(handle, given));
      events := [] + [Event.Verify(handle, given)];
      reply := otp.Verify(handle, given);
      sends := Recorded(old(View()), handle, reply);
    }
  }
}
