/**
 * Digest periods (internal/digest/period.go) in a zone with a fixed offset. A
 * moment is a number of nanoseconds of local time since the calendar's day 0.
 */
module DigestPeriod {
  import opened Calendar

  const HOUR: int := 3_600_000_000_000
  const DAY: int := 24 * HOUR
  const WEEK: int := 7 * DAY
  const SEND_GRACE: int := 48 * HOUR

  /** What user_digest_prefs.frequency says; Other is "off" and anything unknown. */
  datatype Frequency = Weekly | Monthly | Other

  datatype DigestConfig = DigestConfig(weekday: int, hour: int)

  /** What the settings accept (internal/domain/settings/digest.go). */
  predicate Valid(cfg: DigestConfig) { 0 <= cfg.weekday <= 6 && 0 <= cfg.hour <= 23 }

  datatype Period = Period(key: string, since: int, until: int, scheduled: int)

  const NO_PERIOD := Period("", 0, 0, 0)

  function DayOf(t: int): int { t / DAY }

  // ------------------------------------------------------------------ keys

  /** n in decimal, zero-padded to at least w digits. */
  function Digits(n: nat, w: nat): (s: string)
    ensures |s| >= w
    ensures forall i :: 0 <= i < |s| ==> '0' <= s[i] <= '9'
    decreases n + w
  {
    if n == 0 && w == 0 then ""
    else Digits(n / 10, if w == 0 then 0 else w - 1) + [(n % 10 + '0' as int) as char]
  }

  /** What a string of digits says. */
  function Read(s: string): int {
    if s == "" then 0 else 10 * Read(s[..|s| - 1]) + s[|s| - 1] as int - '0' as int
  }

  lemma {:induction false} DigitsRead(n: nat, w: nat)
    ensures Read(Digits(n, w)) == n
    decreases n + w
  {
    if n != 0 || w != 0 {
      var front := Digits(n / 10, if w == 0 then 0 else w - 1);
      DigitsRead(n / 10, if w == 0 then 0 else w - 1);
      assert Digits(n, w)[..|Digits(n, w)| - 1] == front;
    }
  }

  lemma {:induction false} TwoDigits(n: nat)
    requires n < 100
    ensures |Digits(n, 2)| == 2
  {
    assert Digits(n / 10, 1) == Digits(n / 10 / 10, 0) + [(n / 10 % 10 + '0' as int) as char];
  }

  function Signed(n: int, w: nat): (s: string)
    ensures |s| >= w
  {
    if n < 0 then "-" + Digits(-n, w) else Digits(n, w)
  }

  lemma SignedDiffer(a: int, b: int, w: nat)
    requires Signed(a, w) == Signed(b, w) && w > 0
    ensures a == b
  {
    DigitsRead(if a < 0 then -a else a, w);
    DigitsRead(if b < 0 then -b else b, w);
    if a < 0 {
      assert Signed(a, w)[0] == '-';
      assert Signed(a, w)[1..] == Digits(-a, w);
    }
    if b < 0 {
      assert Signed(b, w)[0] == '-';
      assert Signed(b, w)[1..] == Digits(-b, w);
    }
  }

  /** fmt.Sprintf("%d-W%02d", year, week). */
  function WeekKey(w: Week): string
    requires 1 <= w.week <= 53
  {
    Signed(w.year, 1) + "-W" + Digits(w.week, 2)
  }

  /** since.Format("2006-01") for a moment in month mi. */
  function MonthKey(mi: int): string {
    Signed(mi / 12, 4) + "-" + Digits(mi % 12 + 1, 2)
  }

  lemma KeyParts(p: string, q: string, sep: string, x: nat, y: nat)
    requires x < 100 && y < 100 && p + sep + Digits(x, 2) == q + sep + Digits(y, 2)
    ensures p == q && x == y
  {
    TwoDigits(x);
    TwoDigits(y);
    var s := p + sep + Digits(x, 2);
    assert s[|s| - 2..] == Digits(x, 2) && s[|s| - 2..] == Digits(y, 2);
    DigitsRead(x, 2);
    DigitsRead(y, 2);
    assert s[..|s| - 2 - |sep|] == p && s[..|s| - 2 - |sep|] == q;
  }

  lemma WeekKeysDiffer(a: Week, b: Week)
    requires 1 <= a.week <= 53 && 1 <= b.week <= 53
    requires WeekKey(a) == WeekKey(b)
    ensures a == b
  {
    KeyParts(Signed(a.year, 1), Signed(b.year, 1), "-W", a.week, b.week);
    SignedDiffer(a.year, b.year, 1);
  }

  lemma MonthKeysDiffer(a: int, b: int)
    requires MonthKey(a) == MonthKey(b)
    ensures a == b
  {
    hide Digits, Signed;
    KeyParts(Signed(a / 12, 4), Signed(b / 12, 4), "-", a % 12 + 1, b % 12 + 1);
    SignedDiffer(a / 12, b / 12, 4);
  }

  /** A week's key is never a month's. */
  lemma WeekIsNoMonth(w: Week, mi: int)
    requires 1 <= w.week <= 53
    ensures WeekKey(w) != MonthKey(mi)
  {
    TwoDigits(w.week);
    TwoDigits(mi % 12 + 1);
    assert WeekKey(w)[|WeekKey(w)| - 3] == 'W';
    assert MonthKey(mi)[|MonthKey(mi)| - 3] == '-';
  }

  lemma FourDigits(n: nat)
    requires n < 10000
    ensures |Digits(n, 4)| == 4
  {
    var a, b := n / 10, n / 100;
    TwoDigits(b);
    assert b / 10 == n / 1000 && a / 10 == b;
    assert Digits(a, 3) == Digits(b, 2) + [(a % 10 + '0' as int) as char];
    assert Digits(n, 4) == Digits(a, 3) + [(n % 10 + '0' as int) as char];
  }

  // ------------------------------------------------------- what is promised

  /** A send moment of the weekly digest. */
  predicate WeeklySlot(cfg: DigestConfig, t: int) {
    Weekday(DayOf(t)) == cfg.weekday && t % DAY == cfg.hour * HOUR
  }

  /** The send moment of the monthly digest in month mi. */
  function MonthlySlot(cfg: DigestConfig, mi: int): int {
    DaysBeforeMonth(mi) * DAY + cfg.hour * HOUR
  }

  predicate Slot(freq: Frequency, cfg: DigestConfig, t: int) {
    if freq.Weekly? then WeeklySlot(cfg, t) else t == MonthlySlot(cfg, MonthOf(DayOf(t)))
  }

  /** The period of a send moment. */
  function PeriodAt(freq: Frequency, s: int): Period {
    var day := DayOf(s);
    if freq.Weekly? then Period(WeekKey(ISOWeek(day)), (day - 7) * DAY, day * DAY, s)
    else Period(MonthKey(MonthOf(day) - 1), DaysBeforeMonth(MonthOf(day) - 1) * DAY, DaysBeforeMonth(MonthOf(day)) * DAY, s)
  }

  /** s is the most recent send moment at or before now. */
  ghost predicate Latest(freq: Frequency, cfg: DigestConfig, now: int, s: int) {
    Slot(freq, cfg, s) && s <= now && forall t :: Slot(freq, cfg, t) && t <= now ==> t <= s
  }

  lemma SlotsAWeekApart(cfg: DigestConfig, s: int, t: int)
    requires Valid(cfg) && WeeklySlot(cfg, s) && WeeklySlot(cfg, t)
    ensures (t - s) % WEEK == 0 && (s < t ==> s + WEEK <= t) && (DayOf(s) < DayOf(t) ==> DayOf(s) / 7 < DayOf(t) / 7)
    ensures s < t <==> DayOf(s) < DayOf(t)
  {
    var a, b := DayOf(s), DayOf(t);
    assert s == a * DAY + cfg.hour * HOUR && t == b * DAY + cfg.hour * HOUR;
    assert (a + 1) % 7 == (b + 1) % 7;
    assert b - a == 7 * ((b + 1) / 7 - (a + 1) / 7);
    assert t - s == WEEK * ((b + 1) / 7 - (a + 1) / 7);
  }

  lemma WeeklyLatest(cfg: DigestConfig, now: int, s: int)
    requires Valid(cfg) && WeeklySlot(cfg, s) && s <= now < s + WEEK
    ensures Latest(Weekly, cfg, now, s)
  {
    forall t | Slot(Weekly, cfg, t) && t <= now ensures t <= s {
      SlotsAWeekApart(cfg, s, t);
    }
  }

  lemma DayOfMoment(day: int, rest: int)
    requires 0 <= rest < DAY
    ensures DayOf(day * DAY + rest) == day && (day * DAY + rest) % DAY == rest
  {
  }

  lemma MonthlySlotIn(cfg: DigestConfig, mi: int)
    requires Valid(cfg)
    ensures DayOf(MonthlySlot(cfg, mi)) == DaysBeforeMonth(mi)
    ensures MonthOf(DaysBeforeMonth(mi)) == mi
    ensures Slot(Monthly, cfg, MonthlySlot(cfg, mi))
  {
    hide DaysBeforeMonth, MonthOf;
    DayOfMoment(DaysBeforeMonth(mi), cfg.hour * HOUR);
    NextMonth(mi);
    MonthUnique(DaysBeforeMonth(mi), mi);
  }

  lemma MonthlySlotsGrow(cfg: DigestConfig, a: int, b: int)
    requires a < b
    ensures MonthlySlot(cfg, a) + 28 * DAY <= MonthlySlot(cfg, b)
  {
    hide DaysBeforeMonth;
    MonthsGrow(a, b);
  }

  lemma MonthlyLatest(cfg: DigestConfig, now: int, mi: int)
    requires Valid(cfg) && MonthlySlot(cfg, mi) <= now < MonthlySlot(cfg, mi + 1)
    ensures Latest(Monthly, cfg, now, MonthlySlot(cfg, mi))
  {
    hide DaysBeforeMonth, MonthOf, MonthlySlot;
    MonthlySlotIn(cfg, mi);
    forall t | Slot(Monthly, cfg, t) && t <= now ensures t <= MonthlySlot(cfg, mi) {
      var other := MonthOf(DayOf(t));
      if other > mi + 1 {
        MonthlySlotsGrow(cfg, mi + 1, other);
      } else if other < mi {
        MonthlySlotsGrow(cfg, other, mi);
      }
    }
  }

  // ------------------------------------------------------------- the method

  /**
   * CurrentPeriod: the period of the latest send moment at or before now, and
   * whether it is less than the grace old. Any other frequency has no period.
   */
  method CurrentPeriod(freq: Frequency, cfg: DigestConfig, now: int) returns (p: Period, due: bool)
    requires Valid(cfg)
    ensures freq.Other? ==> p == NO_PERIOD && !due
    ensures !freq.Other? ==> Latest(freq, cfg, now, p.scheduled) && p == PeriodAt(freq, p.scheduled)
    ensures !freq.Other? ==> (due <==> now - p.scheduled < SEND_GRACE)
  {
    hide DaysBeforeMonth, MonthOf, ISOWeek, WeekKey, MonthKey, Latest, Slot, WeeklySlot, Weekday;
    match freq {
    case Weekly =>
      var s := DayOf(now) * DAY + cfg.hour * HOUR;
      var back := (Weekday(DayOf(now)) - cfg.weekday + 7) % 7;
      s := s - back * DAY;
      WeeklyStart(cfg, now, back);
      if s > now {
        s := s - 7 * DAY;
      }
      WeeklyLatest(cfg, now, s);
      var day := DayOf(s) * DAY;
      var week := ISOWeek(DayOf(s));
      p := Period(WeekKey(week), day - 7 * DAY, day, s);
    case Monthly =>
      var month := MonthOf(DayOf(now));
      var s := DaysBeforeMonth(month) * DAY + cfg.hour * HOUR;
      MonthlySlotIn(cfg, month);
      MonthlyStart(cfg, now);
      if s > now {
        s := DaysBeforeMonth(MonthOf(DayOf(s)) - 1) * DAY + cfg.hour * HOUR;
        MonthlySlotIn(cfg, month - 1);
        MonthlyLatest(cfg, now, month - 1);
      } else {
        MonthlyLatest(cfg, now, month);
      }
      var until := DaysBeforeMonth(MonthOf(DayOf(s))) * DAY;
      MonthlySlotIn(DigestConfig(0, 0), MonthOf(DayOf(s)));
      var since := DaysBeforeMonth(MonthOf(DayOf(until)) - 1) * DAY;
      MonthlySlotIn(DigestConfig(0, 0), MonthOf(DayOf(until)) - 1);
      p := Period(MonthKey(MonthOf(DayOf(since))), since, until, s);
    case Other =>
      return NO_PERIOD, false;
    }
    due := now - p.scheduled < SEND_GRACE;
  }

  lemma WeeklyStart(cfg: DigestConfig, now: int, back: int)
    requires Valid(cfg) && back == (Weekday(DayOf(now)) - cfg.weekday + 7) % 7
    ensures var s := DayOf(now) * DAY + cfg.hour * HOUR - back * DAY;
            && WeeklySlot(cfg, s) && WeeklySlot(cfg, s - WEEK)
            && s - WEEK <= now < s + WEEK
  {
    var d := DayOf(now);
    assert d * DAY <= now < d * DAY + DAY;
    assert 0 <= back <= 6;
    WeekdayBack(d, back, cfg.weekday);
    hide DayOf, Weekday;
    DayOfMoment(d - back, cfg.hour * HOUR);
    DayOfMoment(d - back - 7, cfg.hour * HOUR);
    assert d * DAY - back * DAY == (d - back) * DAY;
    assert d * DAY - back * DAY - WEEK == (d - back - 7) * DAY;
  }

  lemma WeekdayBack(d: int, back: int, weekday: int)
    requires 0 <= weekday <= 6 && back == (Weekday(d) - weekday + 7) % 7
    ensures Weekday(d - back) == weekday && Weekday(d - back - 7) == weekday
  {
  }

  lemma MonthlyStart(cfg: DigestConfig, now: int)
    requires Valid(cfg)
    ensures var month := MonthOf(DayOf(now));
            MonthlySlot(cfg, month - 1) <= now < MonthlySlot(cfg, month + 1)
  {
    hide DaysBeforeMonth, MonthOf;
    MonthHolds(DayOf(now));
    MonthsGrow(MonthOf(DayOf(now)) - 1, MonthOf(DayOf(now)));
  }

  // ----------------------------------------------------- what it means

  /** Weekly sends fall on the configured weekday and hour, within the last seven days. */
  lemma WeeklyExact(cfg: DigestConfig, now: int, s: int)
    requires Valid(cfg) && Latest(Weekly, cfg, now, s)
    ensures s <= now < s + WEEK && WeeklySlot(cfg, s)
    ensures PeriodAt(Weekly, s).until == s - cfg.hour * HOUR && PeriodAt(Weekly, s).since == PeriodAt(Weekly, s).until - WEEK
  {
    hide ISOWeek, WeekKey;
    DayOfMoment(DayOf(s) + 7, cfg.hour * HOUR);
    assert s + WEEK == (DayOf(s) + 7) * DAY + cfg.hour * HOUR;
    assert Slot(Weekly, cfg, s + WEEK);
  }

  /** Monthly sends fall on the 1st at the configured hour, and now is before the next one. */
  lemma MonthlyExact(cfg: DigestConfig, now: int, s: int)
    requires Valid(cfg) && Latest(Monthly, cfg, now, s)
    ensures var mi := MonthOf(DayOf(s));
            && s == MonthlySlot(cfg, mi) && s <= now < MonthlySlot(cfg, mi + 1)
            && PeriodAt(Monthly, s).until == s - cfg.hour * HOUR
            && MonthOf(DayOf(PeriodAt(Monthly, s).since)) == mi - 1
  {
    hide DaysBeforeMonth, MonthOf, MonthKey;
    var mi := MonthOf(DayOf(s));
    MonthlySlotIn(cfg, mi + 1);
    MonthlySlotsGrow(cfg, mi, mi + 1);
    MonthlySlotIn(DigestConfig(0, 0), mi - 1);
  }

  /** One clock and one configuration have one latest send moment, and it never goes back. */
  lemma LatestAdvances(freq: Frequency, cfg: DigestConfig, now: int, later: int, s: int, t: int)
    requires Latest(freq, cfg, now, s) && Latest(freq, cfg, later, t) && now <= later
    ensures s <= t && (now == later ==> s == t)
  {
  }

  /**
   * Keys follow the send moments: two sends share a key exactly when they are
   * the same send, and a later weekly send has a later ISO year and week, across year ends too.
   */
  lemma KeysAdvance(freq: Frequency, cfg: DigestConfig, s: int, t: int)
    requires Valid(cfg) && !freq.Other? && Slot(freq, cfg, s) && Slot(freq, cfg, t)
    ensures PeriodAt(freq, s).key == PeriodAt(freq, t).key <==> s == t
    ensures freq.Weekly? && s < t ==> WeekBefore(ISOWeek(DayOf(s)), ISOWeek(DayOf(t)))
    ensures freq.Monthly? && s < t ==> MonthOf(DayOf(s)) < MonthOf(DayOf(t))
  {
    hide DaysBeforeMonth, MonthOf, ISOWeek, MonthKey, WeekKey;
    if freq.Weekly? {
      WeekliesDiffer(cfg, s, t);
      WeekliesDiffer(cfg, t, s);
    } else {
      MonthliesDiffer(cfg, s, t);
      MonthliesDiffer(cfg, t, s);
    }
  }

  lemma WeekliesDiffer(cfg: DigestConfig, s: int, t: int)
    requires Valid(cfg) && WeeklySlot(cfg, s) && WeeklySlot(cfg, t)
    ensures s < t ==> WeekBefore(ISOWeek(DayOf(s)), ISOWeek(DayOf(t)))
    ensures s < t ==> WeekKey(ISOWeek(DayOf(s))) != WeekKey(ISOWeek(DayOf(t)))
  {
    hide ISOWeek, WeekKey;
    SlotsAWeekApart(cfg, s, t);
    if s < t {
      WeeksInOrder(DayOf(s), DayOf(t));
      if WeekKey(ISOWeek(DayOf(s))) == WeekKey(ISOWeek(DayOf(t))) {
        WeekKeysDiffer(ISOWeek(DayOf(s)), ISOWeek(DayOf(t)));
      }
    }
  }

  lemma MonthliesDiffer(cfg: DigestConfig, s: int, t: int)
    requires Valid(cfg) && Slot(Monthly, cfg, s) && Slot(Monthly, cfg, t)
    ensures s < t ==> MonthOf(DayOf(s)) < MonthOf(DayOf(t))
    ensures s < t ==> MonthKey(MonthOf(DayOf(s)) - 1) != MonthKey(MonthOf(DayOf(t)) - 1)
  {
    hide DaysBeforeMonth, MonthOf, MonthlySlot, MonthKey;
    var a, b := MonthOf(DayOf(s)), MonthOf(DayOf(t));
    if b < a {
      MonthlySlotsGrow(cfg, b, a);
    }
    if MonthKey(a - 1) == MonthKey(b - 1) {
      MonthKeysDiffer(a - 1, b - 1);
    }
  }

  /** The send after s. */
  function NextSlot(freq: Frequency, cfg: DigestConfig, s: int): int {
    if freq.Weekly? then s + WEEK else MonthlySlot(cfg, MonthOf(DayOf(s)) + 1)
  }

  /** Windows tile time: each begins where the one before it ended, so nothing added falls between two digests or into both. */
  lemma WindowsTile(freq: Frequency, cfg: DigestConfig, s: int)
    requires Valid(cfg) && !freq.Other? && Slot(freq, cfg, s)
    ensures var next := NextSlot(freq, cfg, s);
            && Slot(freq, cfg, next) && s < next
            && (forall t :: s < t < next ==> !Slot(freq, cfg, t))
            && PeriodAt(freq, next).since == PeriodAt(freq, s).until
  {
    hide DaysBeforeMonth, MonthOf, ISOWeek, MonthKey, WeekKey;
    if freq.Weekly? {
      DayOfMoment(DayOf(s) + 7, cfg.hour * HOUR);
      assert s + WEEK == (DayOf(s) + 7) * DAY + cfg.hour * HOUR;
      forall t | s < t < s + WEEK ensures !Slot(freq, cfg, t) {
        if WeeklySlot(cfg, t) {
          SlotsAWeekApart(cfg, s, t);
        }
      }
    } else {
      var mi := MonthOf(DayOf(s));
      MonthlySlotIn(cfg, mi + 1);
      MonthlySlotsGrow(cfg, mi, mi + 1);
      MonthlyLatest(cfg, MonthlySlot(cfg, mi + 1) - 1, mi);
    }
  }

  // ------------------------------------------------- what the key tells

  /** A key of a year with four digits, a mark and a number of two digits. */
  predicate Spells(key: string, year: int, mark: string, number: int) {
    && |key| == 6 + |mark| && Read(key[..4]) == year && key[4..4 + |mark|] == mark && Read(key[4 + |mark|..]) == number
    && forall i :: 0 <= i < |key| && (i < 4 || 4 + |mark| <= i) ==> '0' <= key[i] <= '9'
  }

  lemma PartsSpell(year: nat, mark: string, number: nat)
    requires year < 10000 && number < 100
    ensures Spells(Digits(year, 4) + mark + Digits(number, 2), year, mark, number)
  {
    FourDigits(year);
    TwoDigits(number);
    DigitsRead(year, 4);
    DigitsRead(number, 2);
    hide Digits, Read;
    var key := Digits(year, 4) + mark + Digits(number, 2);
    assert key[..4] == Digits(year, 4) && key[4..4 + |mark|] == mark && key[4 + |mark|..] == Digits(number, 2);
  }

  /**
   * The monthly key is the year and month, January being 01, of every day the
   * digest covers.
   */
  lemma MonthlyKeyNames(s: int, d: int)
    requires PeriodAt(Monthly, s).since <= d * DAY < PeriodAt(Monthly, s).until && 12 <= MonthOf(d) < 120000
    ensures Spells(PeriodAt(Monthly, s).key, MonthOf(d) / 12, "-", MonthOf(d) % 12 + 1)
  {
    hide DaysBeforeMonth, MonthOf, Digits, Read, Spells;
    var mi := MonthOf(DayOf(s)) - 1;
    MonthUnique(d, mi);
    PartsSpell(mi / 12, "-", mi % 12 + 1);
  }

  lemma WideDigits(n: nat)
    requires 1000 <= n < 10000
    ensures Digits(n, 1) == Digits(n, 4)
  {
    assert n / 10 > 0 && n / 10 / 10 > 0 && n / 10 / 10 / 10 > 0 && n / 10 / 10 / 10 / 10 == 0;
    var a, b, c := n / 10, n / 10 / 10, n / 10 / 10 / 10;
    assert Digits(c, 0) == Digits(c, 1);
    assert Digits(b, 0) == Digits(b, 2);
    assert Digits(a, 0) == Digits(a, 3);
  }

  /** The weekly key is the ISO year and week of the day it is sent on, the day after those it covers. */
  lemma WeeklyKeyNames(s: int)
    requires 1000 <= ISOWeek(DayOf(s)).year < 10000
    ensures Spells(PeriodAt(Weekly, s).key, ISOWeek(DayOf(s)).year, "-W", ISOWeek(DayOf(s)).week)
    ensures PeriodAt(Weekly, s).until == DayOf(s) * DAY
  {
    hide Digits, Read, Spells, ISOWeek;
    var w := ISOWeek(DayOf(s));
    WideDigits(w.year);
    PartsSpell(w.year, "-W", w.week);
  }
}
