/** The date gate: the session may run through the configured cutoff day, inclusive. */
module DateGate {
  import opened TimeVerificationConfig
  import opened Calendar

  /** A calendar date with a time of day, as FDateTime exposes it. */
  datatype DateTime = DateTime(year: int, month: int, day: int,
                               hour: int, minute: int, second: int, millisecond: int)

  /** The local clock reading: FDateTime can only hold valid dates and times. */
  type LocalDateTime = t: DateTime | Validate(t.year, t.month, t.day, t.hour, t.minute, t.second, t.millisecond)
    witness DateTime(1, 1, 1, 0, 0, 0, 0)

  /** The reading with its time of day dropped. */
  function DateOnly(now: LocalDateTime): (today: Date)
    ensures ValidDate(today)
  {
    Date(now.year, now.month, now.day)
  }

  /** The configured cutoff date. */
  function CutoffOf(config: VerificationConfig): Date {
    Date(config.year as int, config.month as int, config.day as int)
  }

  /** IsBeforeVerificationDate: false without a configuration or with a cutoff that is
      not a calendar date; otherwise compare midnight today with midnight on the
      cutoff day. */
  function IsBeforeVerificationDate(config: ConfigLookup, now: LocalDateTime): (allowed: bool)
    ensures config.None? ==> !allowed
    ensures allowed ==> config.Some? && ValidDate(CutoffOf(config.value))
  {
    match config
    case None => false
    case Some(c) =>
      if !Validate(c.year as int, c.month as int, c.day as int, 0, 0, 0, 0) then false
      else MidnightTicks(DateOnly(now)) <= MidnightTicks(CutoffOf(c))
  }

  /** A cutoff that is not a calendar date (month 13, day 32, February 30 of a common
      year, year 0) denies every clock reading. */
  lemma InvalidCutoffDenied(config: VerificationConfig, now: LocalDateTime)
    requires !ValidDate(CutoffOf(config))
    ensures !IsBeforeVerificationDate(Some(config), now)
  {
  }

  /** With a valid cutoff the gate allows exactly the days up to and including it. */
  lemma GateIsCalendarOrder(config: VerificationConfig, now: LocalDateTime)
    requires ValidDate(CutoffOf(config))
    ensures IsBeforeVerificationDate(Some(config), now) <==> DateLeq(DateOnly(now), CutoffOf(config))
  {
    MidnightTicksOrder(DateOnly(now), CutoffOf(config));
    DayNumberOrder(DateOnly(now), CutoffOf(config));
  }

  /** The time of day never matters: two readings on the same date get the same answer. */
  lemma TimeOfDayIgnored(config: ConfigLookup, a: LocalDateTime, b: LocalDateTime)
    requires DateOnly(a) == DateOnly(b)
    ensures IsBeforeVerificationDate(config, a) == IsBeforeVerificationDate(config, b)
  {
  }

  /** The cutoff day itself is allowed, at any time of day. */
  lemma CutoffDayAllowed(config: VerificationConfig, now: LocalDateTime)
    requires ValidDate(CutoffOf(config))
    requires DateOnly(now) == CutoffOf(config)
    ensures IsBeforeVerificationDate(Some(config), now)
  {
  }

  /** The day after the cutoff is denied, at any time of day. */
  lemma DayAfterCutoffDenied(config: VerificationConfig, now: LocalDateTime)
    requires ValidDate(CutoffOf(config))
    requires DateOnly(now) == NextDay(CutoffOf(config))
    ensures !IsBeforeVerificationDate(Some(config), now)
  {
    DayNumberNextDay(CutoffOf(config));
  }
}
