/** Time and date decisions: reading the creation date out of a backup file name and
    sorting a backup date into the daily, weekly or monthly retention tier. The
    current date and the two global anchors (`day_of_week`, `day_of_month`), which
    the program reads from globals, are explicit parameters here. */
module Scheduling {

  import opened Wrappers
  import opened Text
  import opened Dates

  /** A named schedule resource: how many days, weeks and months of backups to keep. */
  datatype Schedule = Schedule(daily: int, weekly: int, monthly: int)

  /** The validated `day_of_week` (0 = Sunday ... 6 = Saturday) and `day_of_month` settings. */
  datatype Anchors = Anchors(dayOfWeek: int, dayOfMonth: int)

  datatype Tier = Daily | Weekly | Monthly

  // ---------------------------------------------------------------------------
  // Creation date

  /** `prefix` followed by eight decimal digits occurs in `s` at position `p`. */
  predicate DatedAt(s: string, prefix: string, p: int)
  {
    0 <= p && p + |prefix| + 8 <= |s| && s[p..p + |prefix|] == prefix
    && AllDigits(s[p + |prefix|..p + |prefix| + 8])
  }

  /** The leftmost position at or after `from` where `prefix` and eight digits occur:
      where an unanchored search for `<prefix>\d{8}` succeeds first. */
  function FindDated(s: string, prefix: string, from: nat): (r: Option<nat>)
    ensures r.Some? ==> from <= r.value && DatedAt(s, prefix, r.value)
    ensures r.Some? ==> forall q | from <= q < r.value :: !DatedAt(s, prefix, q)
    ensures r.None? ==> forall q | from <= q :: !DatedAt(s, prefix, q)
    decreases |s| - from
  {
    if from + |prefix| + 8 > |s| then None
    else if DatedAt(s, prefix, from) then Some(from)
    else FindDated(s, prefix, from + 1)
  }

  /** `p` is the leftmost position where `prefix` and eight digits occur. */
  predicate FirstDatedAt(s: string, prefix: string, p: int)
  {
    DatedAt(s, prefix, p) && forall q | 0 <= q < p :: !DatedAt(s, prefix, q)
  }

  /** `Scheduling.determine_creation_date`: the date spelled by the eight digits
      that follow the first occurrence of `<basename>-` plus eight digits in the
      file name. No occurrence, or digits that do not spell a real date, raise. */
  function DetermineCreationDate(filename: string, basename: string): (r: Result<Date>)
    ensures r.Ok? ==> ValidDate(r.value) && 0 <= r.value.year <= 9999
    ensures r.Ok? <==>
              (exists p :: FirstDatedAt(filename, basename + "-", p)
                           && ParseYmd(filename[p + |basename| + 1..p + |basename| + 9]).Ok?)
  {
    var prefix := basename + "-";
    var found := FindDated(filename, prefix, 0);
    if found.None? then Err("no match found")
    else
      var p := found.value;
      assert FirstDatedAt(filename, prefix, p);
      FirstDatedAtUnique(filename, prefix, p);
      ParseYmd(filename[p + |prefix|..p + |prefix| + 8])
  }

  /** There is at most one leftmost occurrence. */
  lemma FirstDatedAtUnique(s: string, prefix: string, p: int)
    requires FirstDatedAt(s, prefix, p)
    ensures forall p' | FirstDatedAt(s, prefix, p') :: p' == p
  {
  }

  /** A name that starts with `<basename>-` and the eight digits of a date yields that
      date, whatever follows (file extensions in practice). */
  lemma CreationDateOfDatedName(basename: string, d: Date, rest: string)
    requires 0 <= d.year <= 9999 && ValidDate(d)
    ensures DetermineCreationDate(basename + "-" + YmdText(d) + rest, basename) == Ok(d)
  {
    var prefix := basename + "-";
    var s := prefix + YmdText(d) + rest;
    YmdRoundTrip(d);
    assert s[..|prefix|] == prefix;
    assert s[|prefix|..|prefix| + 8] == YmdText(d);
    assert DatedAt(s, prefix, 0);
    assert basename + "-" + YmdText(d) + rest == s;
  }

  /** A name in which `<basename>-` is never followed by eight digits has no creation date. */
  lemma NoCreationDateWithoutDigits(filename: string, basename: string)
    requires forall p :: !DatedAt(filename, basename + "-", p)
    ensures DetermineCreationDate(filename, basename).Err?
  {
  }

  // ---------------------------------------------------------------------------
  // Retention tier

  /** The number of days from `bakdate` to `today`. */
  function DaysOld(bakdate: Date, today: Date): int
    requires ValidDate(bakdate) && ValidDate(today)
  {
    DayNumber(today) - DayNumber(bakdate)
  }

  /** `Scheduling.determine_backup_schedule`: the first tier whose window holds the
      date, checked in the order daily, weekly, monthly; `None` when the date is
      in no window (the backup has expired). The daily window is the last `daily`
      days; the weekly window is the last `7 * weekly` days, for dates on the
      `day_of_week` anchor; the monthly window runs back `monthly` calendar months
      (clamped to the end of the month), for dates on the `day_of_month` anchor. */
  function DetermineBackupSchedule(bakdate: Date, today: Date, sched: Schedule, anchors: Anchors): (r: Option<Tier>)
    requires ValidDate(bakdate) && ValidDate(today)
    ensures r == Some(Daily) <==> DaysOld(bakdate, today) < sched.daily
    ensures r == Some(Weekly) <==>
              (DaysOld(bakdate, today) >= sched.daily && Weekday(bakdate) == anchors.dayOfWeek
               && DaysOld(bakdate, today) < 7 * sched.weekly)
    ensures r == Some(Monthly) ==>
              (bakdate.day == anchors.dayOfMonth
               && DayNumber(bakdate) > DayNumber(ShiftMonthsBack(today, sched.monthly)))
  {
    var limitDaily := DayNumber(today) - sched.daily;
    var limitWeekly := DayNumber(today) - 7 * sched.weekly;
    var limitMonthly := DayNumber(ShiftMonthsBack(today, sched.monthly));
    if DayNumber(bakdate) > limitDaily then Some(Daily)
    else if Weekday(bakdate) == anchors.dayOfWeek && DayNumber(bakdate) > limitWeekly then Some(Weekly)
    else if bakdate.day == anchors.dayOfMonth && DayNumber(bakdate) > limitMonthly then Some(Monthly)
    else None
  }

  /** The date lies in the window of tier `t` of the schedule (ignoring the other tiers). */
  predicate InWindow(t: Tier, bakdate: Date, today: Date, sched: Schedule, anchors: Anchors)
    requires ValidDate(bakdate) && ValidDate(today)
  {
    match t
    case Daily => DaysOld(bakdate, today) < sched.daily
    case Weekly => Weekday(bakdate) == anchors.dayOfWeek && DaysOld(bakdate, today) < 7 * sched.weekly
    case Monthly =>
      bakdate.day == anchors.dayOfMonth && DayNumber(bakdate) > DayNumber(ShiftMonthsBack(today, sched.monthly))
  }

  /** The classification is the first tier, in the order daily, weekly, monthly, whose
      window holds the date; a backup is kept exactly when some window holds it, and
      daily wins even when the date also falls on an anchor. */
  lemma ScheduleIsFirstWindow(bakdate: Date, today: Date, sched: Schedule, anchors: Anchors)
    requires ValidDate(bakdate) && ValidDate(today)
    ensures var r := DetermineBackupSchedule(bakdate, today, sched, anchors);
      && (r == Some(Daily) <==> InWindow(Daily, bakdate, today, sched, anchors))
      && (r == Some(Weekly) <==>
            (!InWindow(Daily, bakdate, today, sched, anchors) && InWindow(Weekly, bakdate, today, sched, anchors)))
      && (r == Some(Monthly) <==>
            (!InWindow(Daily, bakdate, today, sched, anchors) && !InWindow(Weekly, bakdate, today, sched, anchors)
             && InWindow(Monthly, bakdate, today, sched, anchors)))
      && (r.None? <==> forall t :: !InWindow(t, bakdate, today, sched, anchors))
  {
    var r := DetermineBackupSchedule(bakdate, today, sched, anchors);
    if r.None? {
      forall t ensures !InWindow(t, bakdate, today, sched, anchors) {
      }
    } else {
      assert InWindow(r.value, bakdate, today, sched, anchors);
    }
  }

  /** A backup exactly `daily` days old has left the daily window. */
  lemma DailyBoundary(bakdate: Date, today: Date, sched: Schedule, anchors: Anchors)
    requires ValidDate(bakdate) && ValidDate(today)
    requires DaysOld(bakdate, today) == sched.daily
    ensures DetermineBackupSchedule(bakdate, today, sched, anchors) != Some(Daily)
  {
  }

  /** A date that falls on neither anchor is kept only while it is inside the daily window. */
  lemma OffAnchorKeptOnlyDaily(bakdate: Date, today: Date, sched: Schedule, anchors: Anchors)
    requires ValidDate(bakdate) && ValidDate(today)
    requires Weekday(bakdate) != anchors.dayOfWeek && bakdate.day != anchors.dayOfMonth
    ensures DetermineBackupSchedule(bakdate, today, sched, anchors).Some?
      <==> DaysOld(bakdate, today) < sched.daily
  {
  }

  /** With a daily depth of at least one, today itself is in the daily tier: this is the
      check that decides that a new backup is due. */
  lemma TodayIsDaily(today: Date, sched: Schedule, anchors: Anchors)
    requires ValidDate(today) && sched.daily >= 1
    ensures DetermineBackupSchedule(today, today, sched, anchors) == Some(Daily)
  {
  }

  /** Going back `n` calendar months from a date lands strictly before it exactly when
      `n` is at least one. */
  lemma ShiftBackBeforeIff(d: Date, n: int)
    requires ValidDate(d)
    ensures DayNumber(ShiftMonthsBack(d, n)) < DayNumber(d) <==> n >= 1
  {
    ShiftMonthsZero(d);
    if n >= 1 {
      ShiftMonthsBackMonotone(d, 0, n);
    } else if n < 0 {
      ShiftMonthsBackMonotone(d, n, 0);
    }
  }

  /** A backup made today is kept by a schedule exactly when its daily depth is at
      least one, or today falls on an anchor whose depth is at least one. */
  lemma TodayKeptIff(today: Date, sched: Schedule, anchors: Anchors)
    requires ValidDate(today)
    ensures DetermineBackupSchedule(today, today, sched, anchors).Some? <==>
      (sched.daily >= 1
       || (Weekday(today) == anchors.dayOfWeek && sched.weekly >= 1)
       || (today.day == anchors.dayOfMonth && sched.monthly >= 1))
  {
    ScheduleIsFirstWindow(today, today, sched, anchors);
    ShiftBackBeforeIff(today, sched.monthly);
  }

  /** Schedule `deeper` keeps at least as much as `sched` in every tier. */
  predicate AtLeastAsDeep(deeper: Schedule, sched: Schedule)
  {
    deeper.daily >= sched.daily && deeper.weekly >= sched.weekly && deeper.monthly >= sched.monthly
  }

  /** Increasing any depth of a schedule never expires a backup that was kept. */
  lemma DeeperScheduleKeepsMore(bakdate: Date, today: Date, sched: Schedule, deeper: Schedule, anchors: Anchors)
    requires ValidDate(bakdate) && ValidDate(today)
    requires AtLeastAsDeep(deeper, sched)
    requires DetermineBackupSchedule(bakdate, today, sched, anchors).Some?
    ensures DetermineBackupSchedule(bakdate, today, deeper, anchors).Some?
  {
    ScheduleIsFirstWindow(bakdate, today, sched, anchors);
    ScheduleIsFirstWindow(bakdate, today, deeper, anchors);
    if InWindow(Monthly, bakdate, today, sched, anchors) && deeper.monthly > sched.monthly {
      ShiftMonthsBackMonotone(today, sched.monthly, deeper.monthly);
      assert InWindow(Monthly, bakdate, today, deeper, anchors);
    }
  }

  /** Retention examples with the schedule daily = 7, weekly = 4, monthly = 6 and the
      anchors Monday and the 1st, seen on Monday 2024-06-10: the last week is daily, the
      Mondays of the last four weeks are weekly, other days are dropped. */
  lemma ScheduleExamples()
    ensures var sched := Schedule(7, 4, 6);
      var anchors := Anchors(1, 1);
      var today := Date(2024, 6, 10);
      && DetermineBackupSchedule(Date(2024, 6, 4), today, sched, anchors) == Some(Daily)
      && DetermineBackupSchedule(Date(2024, 6, 3), today, sched, anchors) == Some(Weekly)
      && DetermineBackupSchedule(Date(2024, 6, 2), today, sched, anchors) == None
      && DetermineBackupSchedule(Date(2024, 5, 20), today, sched, anchors) == Some(Weekly)
      && DetermineBackupSchedule(Date(2024, 5, 13), today, sched, anchors) == None
  {
    assert DaysBeforeYear(2024) == 738885;
    assert DaysBeforeMonth(2024, 5) == 121 && DaysBeforeMonth(2024, 6) == 152;
    assert DayNumber(Date(2024, 6, 10)) == 739047 && Weekday(Date(2024, 6, 10)) == 1;
    assert DayNumber(Date(2024, 6, 4)) == 739041;
    assert DayNumber(Date(2024, 6, 3)) == 739040 && Weekday(Date(2024, 6, 3)) == 1;
    assert DayNumber(Date(2024, 6, 2)) == 739039 && Weekday(Date(2024, 6, 2)) == 0;
    assert DayNumber(Date(2024, 5, 20)) == 739026 && Weekday(Date(2024, 5, 20)) == 1;
    assert DayNumber(Date(2024, 5, 13)) == 739019;
  }

  /** With the same schedule, the 1st of a month within the last six months is monthly,
      an older one is dropped. */
  lemma MonthlyExamples()
    ensures var sched := Schedule(7, 4, 6);
      var anchors := Anchors(1, 1);
      var today := Date(2024, 6, 10);
      && DetermineBackupSchedule(Date(2024, 1, 1), today, sched, anchors) == Some(Monthly)
      && DetermineBackupSchedule(Date(2023, 12, 1), today, sched, anchors) == None
  {
    assert DayNumber(Date(2024, 6, 10)) == 739047;
    assert ShiftMonthsBack(Date(2024, 6, 10), 6) == Date(2023, 12, 10);
  }
}
