/**
 * Calendar arithmetic on India Standard Time and the 14-day company review window. Instants
 * are integral milliseconds since 1970-01-01T00:00Z, before it as well as after.
 */
module IstCalendar {
  import opened Wrappers

  const DAY_MS := 24 * 60 * 60 * 1000
  const IST_OFFSET_MS := 330 * 60 * 1000
  const REVIEW_WINDOW_DAYS := 14
  const EXPIRING_WITHIN_DAYS := 2

  /** Math.floor(a / b) for a positive b; `/` rounds down then. */
  function FloorDiv(a: int, b: int): int
    requires b > 0
  {
    a / b
  }

  /** Math.round(a / b): the nearest integer, halves upwards. */
  function RoundDiv(a: int, b: int): int
    requires b > 0
  {
    FloorDiv(2 * a + b, 2 * b)
  }

  /** The day an instant falls on in India, counted from 1970-01-01. */
  function IstDay(d: int): int { FloorDiv(d + IST_OFFSET_MS, DAY_MS) }

  function UtcDate(d: int): int { FloorDiv(d, DAY_MS) }

  /** 0 is Sunday; 1970-01-01 was a Thursday. */
  function UtcWeekday(d: int): int { (UtcDate(d) + 4) % 7 }

  function StartOfDay(d: int): int { FloorDiv(d + IST_OFFSET_MS, DAY_MS) * DAY_MS - IST_OFFSET_MS }

  function IstDateAfter(d: int, days: int): int { (FloorDiv(d + IST_OFFSET_MS, DAY_MS) + days) * DAY_MS }

  function StartOfWeek(d: int): int {
    var day := StartOfDay(d);
    var weekday := UtcWeekday(day + IST_OFFSET_MS);
    day - ((weekday + 6) % 7) * DAY_MS
  }

  function AddDays(d: int, days: int): int { d + days * DAY_MS }

  function CalendarDaysBetween(from: int, to: int): int { RoundDiv(StartOfDay(to) - StartOfDay(from), DAY_MS) }

  function Min(a: int, b: int): int { if a < b then a else b }
  function Max(a: int, b: int): int { if a > b then a else b }

  function ReviewDay(sentAt: int, now: int): int {
    Max(1, Min(REVIEW_WINDOW_DAYS, CalendarDaysBetween(sentAt, now) + 1))
  }

  function ReviewDaysLeft(sentAt: int, now: int): int { Max(0, REVIEW_WINDOW_DAYS - ReviewDay(sentAt, now)) }

  datatype ReviewState = InReview | Expiring | Shortlisted | SlotsAwaited | AutoExpired

  datatype Referral = Referral(expired: bool, shortlistedAt: Option<int>, sentAt: Option<int>)

  function CompanyReviewState(r: Referral, hasSlots: bool, now: int): ReviewState {
    if r.expired then AutoExpired
    else if r.shortlistedAt.Some? then (if hasSlots then Shortlisted else SlotsAwaited)
    else if r.sentAt.Some? && ReviewDaysLeft(r.sentAt.value, now) <= EXPIRING_WITHIN_DAYS then Expiring
    else InReview
  }

  /* ---------- days ---------- */

  predicate IstMidnight(d: int) { (d + IST_OFFSET_MS) % DAY_MS == 0 }

  /** The one IST midnight in the day up to the instant. */
  lemma StartOfDayIsTheMidnight(d: int, m: int)
    ensures m == StartOfDay(d) <==> IstMidnight(m) && m <= d < m + DAY_MS
  {
  }

  lemma StartOfDayLaws(d: int, e: int)
    ensures StartOfDay(StartOfDay(d)) == StartOfDay(d)
    ensures d <= e ==> StartOfDay(d) <= StartOfDay(e)
    ensures IstDay(d) == IstDay(e) <==> StartOfDay(d) == StartOfDay(e)
  {
    StartOfDayIsTheMidnight(d, StartOfDay(d));
  }

  /** The stored date is the IST date of the instant `days` days on, at UTC midnight. */
  lemma IstDateAfterNamesTheDay(d: int, days: int)
    ensures UtcDate(IstDateAfter(d, days)) == IstDay(d) + days == IstDay(AddDays(d, days))
    ensures IstDateAfter(d, days) % DAY_MS == 0
  {
    assert (d + days * DAY_MS + IST_OFFSET_MS) / DAY_MS == (d + IST_OFFSET_MS) / DAY_MS + days;
  }

  /* ---------- weeks ---------- */

  /** Midnight of a Monday in India. */
  predicate IstMonday(d: int) { IstMidnight(d) && UtcWeekday(d + IST_OFFSET_MS) == 1 }

  /** On day numbers: the one Monday among a day and the six before it. */
  lemma MondayOfWeek(n: int, k: int)
    ensures k == n - ((n + 4) % 7 + 6) % 7 <==> (k + 4) % 7 == 1 && k <= n < k + 7
  {
  }

  /** A midnight is its day number scaled, and orders instants as day numbers do. */
  lemma MidnightScales(m: int, d: int, days: int)
    requires IstMidnight(m)
    ensures m == IstDay(m) * DAY_MS - IST_OFFSET_MS
    ensures m + days * DAY_MS <= d <==> IstDay(m) + days <= IstDay(d)
    ensures UtcDate(m + IST_OFFSET_MS) == IstDay(m)
  {
  }

  lemma StartOfWeekScales(d: int)
    ensures IstMidnight(StartOfWeek(d))
    ensures IstDay(StartOfWeek(d)) == IstDay(d) - ((IstDay(d) + 4) % 7 + 6) % 7
  {
    MidnightScales(StartOfDay(d), d, 0);
    var back := ((IstDay(d) + 4) % 7 + 6) % 7;
    assert StartOfWeek(d) == (IstDay(d) - back) * DAY_MS - IST_OFFSET_MS;
  }

  /** The one Monday midnight in the week up to the instant. */
  lemma StartOfWeekIsTheMonday(d: int, m: int)
    ensures m == StartOfWeek(d) <==> IstMonday(m) && m <= d < m + 7 * DAY_MS
  {
    StartOfWeekScales(d);
    var w := StartOfWeek(d);
    MidnightScales(w, d, 0);
    MidnightScales(w, d, 7);
    MondayOfWeek(IstDay(d), IstDay(w));
    if IstMidnight(m) {
      MidnightScales(m, d, 0);
      MidnightScales(m, d, 7);
      MondayOfWeek(IstDay(d), IstDay(m));
    }
  }

  /** 1 January 2024, a Monday, began in India at 18:30 UTC the evening before. */
  lemma KnownMonday()
    ensures IstMonday(1_704_047_400_000)
    ensures StartOfWeek(1_704_047_400_000 + 7 * DAY_MS - 1) == 1_704_047_400_000
  {
    StartOfWeekIsTheMonday(1_704_047_400_000 + 7 * DAY_MS - 1, 1_704_047_400_000);
  }

  lemma StartOfWeekLaws(d: int, e: int)
    ensures StartOfWeek(StartOfWeek(d)) == StartOfWeek(d)
    ensures d <= e ==> StartOfWeek(d) <= StartOfWeek(e)
  {
    StartOfWeekIsTheMonday(d, StartOfWeek(d));
    StartOfWeekIsTheMonday(e, StartOfWeek(e));
    StartOfWeekIsTheMonday(StartOfWeek(d), StartOfWeek(d));
    if d <= e && StartOfWeek(d) > StartOfWeek(e) {
      StartOfWeekIsTheMonday(d, StartOfWeek(e));
    }
  }

  /* ---------- counting days ---------- */

  /** The rounding never rounds: the quotient is the difference of the two IST days. */
  lemma CalendarDaysExact(from: int, to: int)
    ensures CalendarDaysBetween(from, to) * DAY_MS == StartOfDay(to) - StartOfDay(from)
    ensures CalendarDaysBetween(from, to) == IstDay(to) - IstDay(from)
  {
    var n := IstDay(to) - IstDay(from);
    assert StartOfDay(to) - StartOfDay(from) == n * DAY_MS;
    assert (2 * (n * DAY_MS) + DAY_MS) / (2 * DAY_MS) == n;
  }

  lemma CalendarDaysAdd(from: int, mid: int, to: int)
    ensures CalendarDaysBetween(from, to) == CalendarDaysBetween(from, mid) + CalendarDaysBetween(mid, to)
  {
    CalendarDaysExact(from, mid);
    CalendarDaysExact(mid, to);
    CalendarDaysExact(from, to);
  }

  /* ---------- the review window ---------- */

  lemma ReviewDaysAddUp(sentAt: int, now: int)
    ensures 1 <= ReviewDay(sentAt, now) <= REVIEW_WINDOW_DAYS
    ensures ReviewDay(sentAt, now) + ReviewDaysLeft(sentAt, now) == REVIEW_WINDOW_DAYS
  {
  }

  /** A waiting CV turns Expiring at the IST midnight that opens day 12, and stays so. */
  lemma ExpiringFromDayTwelve(sentAt: int, hasSlots: bool, now: int)
    ensures CompanyReviewState(Referral(false, None, Some(sentAt)), hasSlots, now) ==
            if now >= AddDays(StartOfDay(sentAt), 11) then Expiring else InReview
    ensures now >= AddDays(StartOfDay(sentAt), 11) <==> ReviewDay(sentAt, now) >= 12
  {
    CalendarDaysExact(sentAt, now);
    assert now >= AddDays(StartOfDay(sentAt), 11) <==> IstDay(now) - IstDay(sentAt) >= 11;
  }

  /** Day n + 1 of the window runs from the n-th IST midnight after the sending to the next; the ends are clamped. */
  lemma ReviewDayCounts(sentAt: int, now: int, n: int)
    requires AddDays(StartOfDay(sentAt), n) <= now < AddDays(StartOfDay(sentAt), n + 1)
    ensures ReviewDay(sentAt, now) == if n < 0 then 1 else if n < 14 then n + 1 else 14
    ensures ReviewDaysLeft(sentAt, now) == if n < 0 then 13 else if n < 14 then 13 - n else 0
  {
    CalendarDaysExact(sentAt, now);
    assert IstDay(now) - IstDay(sentAt) == n;
  }

  /** An expired referral is closed whatever else holds; a shortlisted one waits for slots or has them. */
  lemma ReviewStateDecided(r: Referral, hasSlots: bool, now: int)
    ensures CompanyReviewState(r, hasSlots, now) == AutoExpired <==> r.expired
    ensures CompanyReviewState(r, hasSlots, now) == Shortlisted <==> !r.expired && r.shortlistedAt.Some? && hasSlots
    ensures CompanyReviewState(r, hasSlots, now) == SlotsAwaited <==> !r.expired && r.shortlistedAt.Some? && !hasSlots
    ensures CompanyReviewState(r, hasSlots, now) == Expiring <==>
            && !r.expired && r.shortlistedAt.None? && r.sentAt.Some?
            && now >= AddDays(StartOfDay(r.sentAt.value), 11)
  {
    if r.sentAt.Some? { ExpiringFromDayTwelve(r.sentAt.value, hasSlots, now); }
  }
}
