/**
 * One-time codes in Redis: the verify script with its attempt counter, issue, and the
 * per-address send cooldown. Time is counted in seconds; a key is live before its expiry.
 */
module Otp {
  import opened Wrappers

  const OTP_TTL_SECONDS := 600
  const OTP_MAX_ATTEMPTS := 5
  const OTP_RESEND_COOLDOWN_SECONDS := 60

  type Email = string
  type Handle = string

  /** The registration details held under a code; `form` is everything but the address. */
  datatype Pending = Pending(email: Email, form: string)

  datatype Record = Record(hash: string, attempts: nat, payload: Option<Pending>, expiresAt: int)

  datatype Reply =
    | NoKey
    | Exhausted
    | Mismatch(remaining: int)
    | Match(payload: Option<Pending>)

  type Records = map<Handle, Record>

  predicate Live(records: Records, now: int, key: Handle) {
    key in records && now < records[key].expiresAt
  }

  /** What one run of the verify script answers and leaves behind. */
  function VerifyScript(records: Records, now: int, key: Handle, given: string): (Records, Reply) {
    if !Live(records, now, key) then (records, NoKey)
    else
      var r := records[key].(attempts := records[key].attempts + 1);
      if r.attempts > OTP_MAX_ATTEMPTS then (records - {key}, Exhausted)
      else if r.hash == given then (records - {key}, Match(r.payload))
      else (records[key := r], Mismatch(OTP_MAX_ATTEMPTS - r.attempts))
  }

  class OtpService {
    var records: Records
    var cooldowns: map<Email, int>
    var now: int

    constructor (now: int)
      ensures records == map[] && cooldowns == map[] && this.now == now
    {
      records, cooldowns, this.now := map[], map[], now;
    }

    method Verify(key: Handle, given: string) returns (reply: Reply)
      modifies this`records
      ensures (records, reply) == VerifyScript(old(records), now, key, given)
    {
      if !Live(records, now, key) {
        return NoKey;
      }
      var attempts := records[key].attempts + 1;
      records := records[key := records[key].(attempts := attempts)];
      if attempts > OTP_MAX_ATTEMPTS {
        records := records - {key};
        assert records == old(records) - {key};
        return Exhausted;
      }
      if records[key].hash == given {
        var payload := records[key].payload;
        records := records - {key};
        assert records == old(records) - {key};
        return Match(payload);
      }
      return Mismatch(OTP_MAX_ATTEMPTS - attempts);
    }

    method Issue(key: Handle, hash: string, payload: Option<Pending>)
      modifies this`records
      ensures records == old(records)[key := Record(hash, 0, payload, now + 600)]
    {
      records := records - {key};
      records := records[key := Record(hash, 0, payload, now + OTP_TTL_SECONDS)];
    }

    method PeekPayload(key: Handle) returns (payload: Option<Pending>)
      ensures payload == if Live(records, now, key) then records[key].payload else None
    {
      payload := if Live(records, now, key) then records[key].payload else None;
    }

    /** SET NX and the TTL read taken as one step: 0 grants the send, else the seconds left. */
    method ClaimSend(email: Email) returns (wait: int)
      modifies this`cooldowns
      ensures wait >= 0
      ensures wait == 0 <==> !(email in old(cooldowns) && now < old(cooldowns)[email])
      ensures wait == 0 ==> cooldowns == old(cooldowns)[email := now + 60]
      ensures wait > 0 ==> cooldowns == old(cooldowns) && now + wait == cooldowns[email]
    {
      if email in cooldowns && now < cooldowns[email] {
        return cooldowns[email] - now;
      }
      cooldowns := cooldowns[email := now + OTP_RESEND_COOLDOWN_SECONDS];
      wait := 0;
    }

    method ReleaseSend(email: Email)
      modifies this`cooldowns
      ensures cooldowns == old(cooldowns) - {email}
    {
      cooldowns := cooldowns - {email};
    }
  }
}
