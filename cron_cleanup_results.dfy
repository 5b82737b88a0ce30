/**
 * POST /api/cron/cleanup-results (app/api/cron/cleanup-results/route.js):
 * the retention job for finished results. Test records created before the
 * first day of the month `months` calendar months back are deleted with
 * all their attempts, completed or not, in one transaction.
 *
 * The cutoff is computed on the server's local calendar. A local reading
 * is a Civil value (month 0..11 as in JavaScript); it is turned into
 * milliseconds since the epoch with the proleptic Gregorian calendar and a
 * fixed offset of local time from UTC.
 */
module CronCleanupResults {
  import opened Common
  import opened Db

  const DayMs: int := 24 * 60 * 60 * 1000

  datatype Civil = Civil(year: int, month: int, day: int, msOfDay: int)

  predicate IsLeapYear(y: int)
  {
    (y % 4 == 0 && y % 100 != 0) || y % 400 == 0
  }

  function DaysInMonth(y: int, m: int): (n: int)
    requires 0 <= m < 12
    ensures 28 <= n <= 31
    ensures n == 29 <==> m == 1 && IsLeapYear(y)
  {
    if m == 1 then (if IsLeapYear(y) then 29 else 28)
    else if m == 3 || m == 5 || m == 8 || m == 10 then 30
    else 31
  }

  predicate ValidCivil(c: Civil)
  {
    0 <= c.month < 12 && 1 <= c.day <= DaysInMonth(c.year, c.month) && 0 <= c.msOfDay < DayMs
  }

  /** Months counted from year 0, so that consecutive months differ by one. */
  function MonthIndex(c: Civil): int
  {
    c.year * 12 + c.month
  }

  /**
   * Date.prototype.setMonth(m) on a valid reading: the year absorbs
   * whole multiples of twelve, the day of month is kept, and a day the
   * target month does not have rolls over into the next month.
   */
  function SetMonth(c: Civil, m: int): (r: Civil)
    requires ValidCivil(c)
    ensures ValidCivil(r)
    ensures c.day <= DaysInMonth(c.year + m / 12, m % 12) ==> MonthIndex(r) == MonthIndex(c) - c.month + m && r.day == c.day
    ensures c.day > DaysInMonth(c.year + m / 12, m % 12) ==> MonthIndex(r) == MonthIndex(c) - c.month + m + 1
    ensures r.msOfDay == c.msOfDay
  {
    var y, mn := c.year + m / 12, m % 12;
    var dim := DaysInMonth(y, mn);
    if c.day <= dim then Civil(y, mn, c.day, c.msOfDay)
    else if mn == 11 then Civil(y + 1, 0, c.day - dim, c.msOfDay)
    else Civil(y, mn + 1, c.day - dim, c.msOfDay)
  }

  /**
   * The cutoff as the route computes it: setMonth(getMonth() - months),
   * then setDate(1), then setHours(0, 0, 0, 0).
   */
  function CutoffAsWritten(now: Civil, months: int): Civil
    requires ValidCivil(now)
  {
    SetMonth(now, now.month - months).(day := 1, msOfDay := 0)
  }

  /**
   * The cutoff the route means: 00:00 on day 1 of the month `months`
   * before the current one. Moving to day 1 before changing the month is
   * what keeps the day from rolling over.
   */
  function CutoffMonth(now: Civil, months: int): Civil
    requires ValidCivil(now)
  {
    SetMonth(now.(day := 1), now.month - months).(msOfDay := 0)
  }

  /** The corrected cutoff is midnight on the first of the month exactly `months` back. */
  lemma CutoffMonthIsMonthStart(now: Civil, months: int)
    requires ValidCivil(now)
    ensures ValidCivil(CutoffMonth(now, months))
    ensures CutoffMonth(now, months).day == 1 && CutoffMonth(now, months).msOfDay == 0
    ensures MonthIndex(CutoffMonth(now, months)) == MonthIndex(now) - months
  {
  }

  /** The two agree whenever the current day exists in the target month. */
  lemma CutoffAsWrittenAgrees(now: Civil, months: int)
    requires ValidCivil(now)
    requires now.day <= DaysInMonth(now.year + (now.month - months) / 12, (now.month - months) % 12)
    ensures CutoffAsWritten(now, months) == CutoffMonth(now, months)
  {
  }

  /** Otherwise the route's cutoff lands one month later than meant. */
  lemma CutoffAsWrittenOverflows(now: Civil, months: int)
    requires ValidCivil(now)
    requires now.day > DaysInMonth(now.year + (now.month - months) / 12, (now.month - months) % 12)
    ensures MonthIndex(CutoffAsWritten(now, months)) == MonthIndex(CutoffMonth(now, months)) + 1
  {
  }

  /**
   * With the default retention of 12 months, a run on 29 February 2024
   * computes 1 March 2023 instead of 1 February 2023; a run on 31 March
   * with a one-month retention computes 1 March instead of 1 February.
   */
  lemma CutoffAsWrittenExamples()
    ensures CutoffAsWritten(Civil(2024, 1, 29, 0), 12) == Civil(2023, 2, 1, 0)
    ensures CutoffMonth(Civil(2024, 1, 29, 0), 12) == Civil(2023, 1, 1, 0)
    ensures CutoffAsWritten(Civil(2025, 2, 31, 0), 1) == Civil(2025, 2, 1, 0)
    ensures CutoffMonth(Civil(2025, 2, 31, 0), 1) == Civil(2025, 1, 1, 0)
  {
  }

  // -----------------------------------------------------------------------
  // From a local reading to milliseconds since the epoch
  // -----------------------------------------------------------------------

  function DaysBeforeMonth(y: int, m: int): (n: int)
    requires 0 <= m <= 12
    ensures n >= 0
  {
    if m == 0 then 0 else DaysBeforeMonth(y, m - 1) + DaysInMonth(y, m - 1)
  }

  /** Leap years among the years 1 .. y-1 (counted with floor division for earlier years). */
  function LeapYearsBefore(y: int): int
  {
    (y - 1) / 4 - (y - 1) / 100 + (y - 1) / 400
  }

  function DayNumber(c: Civil): int
    requires 0 <= c.month < 12
  {
    365 * (c.year - 1970) + LeapYearsBefore(c.year) - LeapYearsBefore(1970) + DaysBeforeMonth(c.year, c.month) + c.day - 1
  }

  /** The instant of a local reading, for a local time tzOffsetMs ahead of UTC. */
  function EpochMs(c: Civil, tzOffsetMs: int): Time
    requires 0 <= c.month < 12
  {
    DayNumber(c) * DayMs + c.msOfDay - tzOffsetMs
  }

  /**
   * What the early cutoff costs: a record created on 15 February 2023
   * (UTC) is already deleted by the run of 29 February 2024 as written,
   * although it is inside the twelve months the run is meant to keep.
   */
  lemma LeapDayRunDeletesFebruary()
    ensures var created := EpochMs(Civil(2023, 1, 15, 0), 0);
      created < EpochMs(CutoffAsWritten(Civil(2024, 1, 29, 0), 12), 0)
      && created >= EpochMs(CutoffMonth(Civil(2024, 1, 29, 0), 12), 0)
  {
    CutoffAsWrittenExamples();
    var base := 365 * (2023 - 1970) + LeapYearsBefore(2023) - LeapYearsBefore(1970);
    assert DaysBeforeMonth(2023, 1) == 31;
    assert DaysBeforeMonth(2023, 2) == 59 by {
      assert !IsLeapYear(2023);
    }
    assert DayNumber(Civil(2023, 1, 15, 0)) == base + 45;
    assert DayNumber(Civil(2023, 2, 1, 0)) == base + 59;
    assert DayNumber(Civil(2023, 1, 1, 0)) == base + 31;
  }

  // -----------------------------------------------------------------------
  // The route
  // -----------------------------------------------------------------------

  function OldRecords(records: map<nat, Record>, cutoff: Time): set<nat>
  {
    set r | r in records && records[r].createdAt < cutoff
  }

  function AttemptsOfRecords(attempts: map<nat, Attempt>, recordIds: set<nat>): set<nat>
  {
    set k | k in attempts && attempts[k].recordId.Some? && attempts[k].recordId.value in recordIds
  }

  datatype ResultsReply =
    | Unauthorized
    | ResultsCleaned(cutoff: Civil, deletedRecords: nat, deletedAttempts: nat)

  /**
   * header is the x-cron-secret header ("" when absent), configured the
   * CRON_SECRET ("" when unset), now the local reading of the clock and
   * months the configured retention.
   */
  method CleanupResults(db: Database, configured: string, header: string, now: Civil, tzOffsetMs: int, months: int)
    returns (r: ResultsReply)
    requires db.Valid()
    requires ValidCivil(now)
    modifies db
    ensures db.Valid()
    ensures r.Unauthorized? <==> configured != "" && header != configured
    ensures r.Unauthorized? ==> db.attempts == old(db.attempts) && db.records == old(db.records)
    ensures r.ResultsCleaned? ==>
      var cutoffMs := EpochMs(CutoffMonth(now, months), tzOffsetMs);
      var old_ := OldRecords(old(db.records), cutoffMs);
      && r.cutoff == CutoffMonth(now, months)
      && r.deletedRecords == |old_|
      && r.deletedAttempts == |AttemptsOfRecords(old(db.attempts), old_)|
      && db.records == DropKeys(old(db.records), old_)
      && db.attempts == DropKeys(old(db.attempts), AttemptsOfRecords(old(db.attempts), old_))
      && (old_ == {} ==> db.records == old(db.records) && db.attempts == old(db.attempts))
    ensures r.ResultsCleaned? ==>
      forall k :: k in db.records ==> db.records[k].createdAt >= EpochMs(r.cutoff, tzOffsetMs)
    ensures KeepsReferenced(db.attempts, old(db.records), db.records)
    ensures db.sessions == old(db.sessions) && db.answers == old(db.answers)
    ensures db.packages == old(db.packages) && db.categories == old(db.categories) && db.nextId == old(db.nextId)
  {
    if configured != "" && header != configured {
      return Unauthorized;
    }
    var cutoff := CutoffMonth(now, months);
    var cutoffMs := EpochMs(cutoff, tzOffsetMs);
    var oldRecords := OldRecords(db.records, cutoffMs);
    if |oldRecords| == 0 {
      DropKeysOfNothing(db.records, oldRecords);
      DropKeysOfNothing(db.attempts, AttemptsOfRecords(db.attempts, oldRecords));
      return ResultsCleaned(cutoff, 0, 0);
    }
    var doomed := AttemptsOfRecords(db.attempts, oldRecords);
    db.attempts := DropKeys(db.attempts, doomed);
    db.records := DropKeys(db.records, oldRecords);
    return ResultsCleaned(cutoff, |oldRecords|, |doomed|);
  }
}
