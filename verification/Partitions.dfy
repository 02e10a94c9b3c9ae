/** Monthly partitions of the raw events, made one month early and dropped with all they hold. */
module Partitions {
  import opened Wrappers
  import opened Calendar
  import opened Database
  import opened RawEvents

  /** The `datetime` constructor refuses a year or month out of range. */
  datatype DateError = OutOfRange

  function MonthStartOf(dt: Moment): Moment {
    Moment(dt.year, dt.month, 1, 0)
  }

  function NextMonth(dt: Moment): Result<Moment, DateError> {
    if dt.month < 12 then Ok(Moment(dt.year, dt.month + 1, 1, 0))
    else if dt.year < 9999 then Ok(Moment(dt.year + 1, 1, 1, 0))
    else Err(OutOfRange)
  }

  /** Going back by months is subtraction on the month index; it fails when the result is no
      `datetime`, or when a negative count leaves the year. */
  method MonthsAgo(dt: Moment, months: int) returns (r: Result<Moment, DateError>)
    requires dt.Valid()
    ensures r.Ok? <==> dt.month - months <= 12 && dt.Index() - months >= 12
    ensures r.Ok? ==> r.value.Valid() && r.value.Index() == dt.Index() - months
    ensures r.Ok? ==> r.value.day == 1 && r.value.micros == 0
  {
    var year, month := dt.year, dt.month - months;
    while month <= 0
      invariant 12 * year + month == 12 * dt.year + dt.month - months
      invariant month <= 12 || (year == dt.year && month == dt.month - months)
      decreases -month
    {
      month := month + 12;
      year := year - 1;
    }
    if 1 <= year <= 9999 && month <= 12 {
      r := Ok(Moment(year, month, 1, 0));
    } else {
      r := Err(OutOfRange);
    }
  }

  // ---- names ------------------------------------------------------------------------

  const PREFIX := "l4_raw_events_"

  function Digit(n: nat): char
    requires n < 10
  {
    ('0' as int + n) as char
  }

  predicate IsDigit(c: char) {
    '0' <= c <= '9'
  }

  function DigitValue(c: char): (n: nat)
    requires IsDigit(c)
    ensures n < 10 && Digit(n) == c
  {
    c as int - '0' as int
  }

  function Decimal(n: nat): string {
    if n < 10 then [Digit(n)] else Decimal(n / 10) + [Digit(n % 10)]
  }

  /** The year is printed without padding, the month with two digits. */
  function NameOf(year: nat, month: nat): string
    requires month < 100
  {
    PREFIX + Decimal(year) + "_" + [Digit(month / 10), Digit(month % 10)]
  }

  function PartitionNameFor(dt: Moment): string
    requires dt.Valid()
  {
    var start := MonthStartOf(dt);
    NameOf(start.year, start.month)
  }

  /** `^l4_raw_events_(\d{4})_(\d{2})$`, with the two numbers read off. */
  function MatchName(name: string): Option<(nat, nat)> {
    if |name| == 21 && PREFIX <= name && name[18] == '_'
       && IsDigit(name[14]) && IsDigit(name[15]) && IsDigit(name[16]) && IsDigit(name[17])
       && IsDigit(name[19]) && IsDigit(name[20])
    then Some((1000 * DigitValue(name[14]) + 100 * DigitValue(name[15]) + 10 * DigitValue(name[16]) + DigitValue(name[17]),
               10 * DigitValue(name[19]) + DigitValue(name[20])))
    else None
  }

  lemma FourDigits(year: nat)
    requires year <= 9999
    ensures year >= 1000 ==>
              Decimal(year) == [Digit(year / 1000), Digit(year / 100 % 10), Digit(year / 10 % 10), Digit(year % 10)]
    ensures |Decimal(year)| == 4 <==> year >= 1000
    ensures |Decimal(year)| <= 4
  {
    assert year / 10 / 10 == year / 100 && year / 100 / 10 == year / 1000;
    var d := Decimal(year / 100);
    assert year >= 1000 ==> d == Decimal(year / 1000) + [Digit(year / 100 % 10)];
    assert year >= 1000 ==> Decimal(year / 1000) == [Digit(year / 1000)];
    assert year >= 100 ==> Decimal(year / 10) == d + [Digit(year / 10 % 10)];
    assert year >= 10 ==> Decimal(year) == Decimal(year / 10) + [Digit(year % 10)];
  }

  lemma DigitsOfYear(year: nat)
    requires year <= 9999
    ensures 1000 * (year / 1000) + 100 * (year / 100 % 10) + 10 * (year / 10 % 10) + year % 10 == year
    ensures year / 1000 < 10
  {
  }

  /** Names round-trip through the pattern for four-digit years, and only for those. */
  lemma NameRoundTrip(year: nat, month: nat)
    requires year <= 9999 && 1 <= month <= 12
    ensures MatchName(NameOf(year, month)) == if year >= 1000 then Some((year, month)) else None
  {
    FourDigits(year);
    DigitsOfYear(year);
    var name, digits := NameOf(year, month), Decimal(year);
    if year >= 1000 {
      assert name[14..18] == digits;
      assert name[14] == digits[0] && name[15] == digits[1] && name[16] == digits[2] && name[17] == digits[3];
      assert DigitValue(name[19]) == month / 10 && DigitValue(name[20]) == month % 10;
    }
  }

  // ---- DDL --------------------------------------------------------------------------

  datatype Ddl = Ddl(name: string, from: Moment, to: Moment)

  function PartitionDdl(dt: Moment): Result<Ddl, DateError>
    requires dt.Valid()
  {
    var name := PartitionNameFor(dt);
    if MatchName(name).None? then Err(OutOfRange)
    else
      var start := MonthStartOf(dt);
      match NextMonth(start)
      case Err(e) => Err(e)
      case Ok(end) => Ok(Ddl(name, start, end))
  }

  /** The months for which a partition can be created. */
  predicate HasPartitionName(m: nat) {
    12_000 <= m <= 119_998
  }

  lemma FirstOfMonth(dt: Moment)
    requires dt.Valid() && dt.day == 1 && dt.micros == 0
    ensures dt.Ticks() == FirstInstant(dt.Index())
  {
  }

  lemma NextMonthIs(dt: Moment)
    requires dt.Valid()
    ensures NextMonth(dt).Ok? <==> InYears(dt.Index() + 1)
    ensures NextMonth(dt).Ok? ==>
              NextMonth(dt).value.Valid() && NextMonth(dt).value.Index() == dt.Index() + 1
    ensures NextMonth(dt).Ok? ==> NextMonth(dt).value.Ticks() == FirstInstant(dt.Index() + 1)
  {
    if NextMonth(dt).Ok? { FirstOfMonth(NextMonth(dt).value); }
  }

  lemma MonthStartIs(dt: Moment)
    requires dt.Valid()
    ensures MonthStartOf(dt).Valid() && MonthStartOf(dt).Index() == dt.Index()
    ensures MonthStartOf(dt).Ticks() == FirstInstant(dt.Index())
  {
    FirstOfMonth(MonthStartOf(dt));
  }

  /** A partition holds exactly the instants of its month, and its name tells the month. */
  lemma PartitionCoversItsMonth(dt: Moment, t: nat)
    requires dt.Valid()
    ensures PartitionDdl(dt).Ok? <==> HasPartitionName(dt.Index())
    ensures PartitionDdl(dt).Ok? ==>
              var d := PartitionDdl(dt).value;
              && d.from.Valid() && d.to.Valid()
              && (d.from.Ticks() <= t < d.to.Ticks() <==> MonthOf(t) == dt.Index())
              && MatchName(d.name) == Some((dt.year, dt.month))
  {
    NameRoundTrip(dt.year, dt.month);
    assert dt.year >= 1000 <==> dt.Index() >= 12_000;
    MonthStartIs(dt);
    NextMonthIs(MonthStartOf(dt));
    MonthsTile(t, dt.Index());
  }

  /** Every month that can have a partition has one in the right years. */
  ghost predicate PartitionsOk(partitions: set<nat>) {
    forall m :: m in partitions ==> HasPartitionName(m)
  }

  /** This month and the next. */
  function EnsureSpec(s: Store, now: nat): Outcome<Store> {
    var m := MonthOf(now);
    if HasPartitionName(m) && HasPartitionName(m + 1) then Done(s.(partitions := s.partitions + {m, m + 1})) else Refused(Invalid)
  }

  lemma NameOfIndex(dt: Moment)
    requires dt.Valid() && HasPartitionName(dt.Index())
    ensures NameOfMonth(dt.Index()) == PartitionNameFor(dt)
  {
    assert dt.Index() / 12 == dt.year && dt.Index() % 12 + 1 == dt.month;
  }

  lemma DdlOfMonth(dt: Moment)
    requires dt.Valid()
    ensures PartitionDdl(dt).Ok? <==> HasPartitionName(dt.Index())
    ensures PartitionDdl(dt).Ok? ==> PartitionDdl(dt).value.name == PartitionNameFor(dt)
  {
    PartitionCoversItsMonth(dt, 0);
  }

  /** One turn of the loop: the DDL for a month, and its name. */
  method EnsurePartition(session: Session, dt: Moment) returns (r: Result<string, DateError>)
    requires dt.Valid()
    modifies session
    ensures r.Ok? <==> HasPartitionName(dt.Index())
    ensures r.Ok? ==> r.value == NameOfMonth(dt.Index())
    ensures session.db == old(session.db).(partitions := old(session.db.partitions) + if r.Ok? then {dt.Index()} else {})
  {
    DdlOfMonth(dt);
    var ddl := PartitionDdl(dt);
    if ddl.Err? { return Err(OutOfRange); }
    NameOfIndex(dt);
    session.db := session.db.(partitions := session.db.partitions + {dt.Index()});
    r := Ok(PartitionNameFor(dt));
  }

  method EnsurePartitions(session: Session, now: nat) returns (r: Outcome<seq<string>>)
    requires InYears(MonthOf(now))
    modifies session
    ensures r.Done? <==> EnsureSpec(old(session.db), now).Done?
    ensures r.Done? ==> session.db == EnsureSpec(old(session.db), now).value
    ensures r.Done? ==> HasPartitionName(MonthOf(now)) && HasPartitionName(MonthOf(now) + 1)
    ensures r.Done? ==> r.value == [NameOfMonth(MonthOf(now)), NameOfMonth(MonthOf(now) + 1)]
    ensures !r.Crashed?
  {
    var dt := MomentAt(now);
    MomentRoundTrip(now);
    var next := NextMonth(dt);
    NextMonthIs(dt);
    if next.Err? { return Refused(Invalid); }
    var first := EnsurePartition(session, dt);
    if first.Err? { return Refused(Invalid); }
    var second := EnsurePartition(session, next.value);
    if second.Err? { return Refused(Invalid); }
    assert session.db.partitions == old(session.db.partitions) + {MonthOf(now), MonthOf(now) + 1};
    r := Done([first.value, second.value]);
  }

  // ---- expiry -----------------------------------------------------------------------

  /** The name matches the pattern but its numbers are no month of a year. */
  predicate NotAMonth(name: string) {
    MatchName(name).Some? && !(1 <= MatchName(name).value.0 && 1 <= MatchName(name).value.1 <= 12)
  }

  predicate NameBefore(name: string, cutoff: int) {
    MatchName(name).Some? && !NotAMonth(name) && 12 * MatchName(name).value.0 + MatchName(name).value.1 - 1 < cutoff
  }

  function NamesBefore(names: seq<string>, cutoff: int): seq<string> {
    if names == [] then []
    else
      var last := names[|names| - 1];
      NamesBefore(names[..|names| - 1], cutoff) + if NameBefore(last, cutoff) then [last] else []
  }

  /** A window of months can be subtracted from a month. */
  predicate WindowOk(m: nat, months: int) {
    m % 12 + 1 - months <= 12 && m - months >= 12
  }

  lemma MonthsBefore(a: Moment, b: Moment)
    requires a.Valid() && b.Valid() && a.day == 1 && a.micros == 0 && b.day == 1 && b.micros == 0
    ensures a.Ticks() < b.Ticks() <==> a.Index() < b.Index()
  {
    if a.Index() < b.Index() { MonthStartSpread(a.Index(), b.Index()); } else { MonthStartSpread(b.Index(), a.Index()); }
  }

  lemma NameBeforeIs(name: string, cutoff: Moment)
    requires MatchName(name).Some? && !NotAMonth(name)
    requires cutoff.Valid() && cutoff.day == 1 && cutoff.micros == 0
    ensures var first := Moment(MatchName(name).value.0, MatchName(name).value.1, 1, 0);
            first.Valid() && (NameBefore(name, cutoff.Index()) <==> first.Ticks() < cutoff.Ticks())
  {
    MatchedYear(name);
    MonthsBefore(Moment(MatchName(name).value.0, MatchName(name).value.1, 1, 0), cutoff);
  }

  lemma MatchedYear(name: string)
    ensures MatchName(name).Some? ==> MatchName(name).value.0 <= 9999
  {
  }

  lemma NamesBeforeMore(names: seq<string>, i: nat, cutoff: int)
    requires i < |names|
    ensures NamesBefore(names[..i + 1], cutoff)
            == NamesBefore(names[..i], cutoff) + if NameBefore(names[i], cutoff) then [names[i]] else []
  {
    assert names[..i + 1][..i] == names[..i];
  }

  /** The test of one name; numbers that are no month make the `datetime` constructor fail. */
  method IsExpired(name: string, cutoff: Moment) returns (r: Result<bool, DateError>)
    requires cutoff.Valid() && cutoff.day == 1 && cutoff.micros == 0
    ensures r.Err? <==> NotAMonth(name)
    ensures r.Ok? ==> (r.value <==> NameBefore(name, cutoff.Index()))
  {
    var parsed := MatchName(name);
    if parsed.None? { return Ok(false); }
    if NotAMonth(name) { return Err(OutOfRange); }
    NameBeforeIs(name, cutoff);
    r := Ok(Moment(parsed.value.0, parsed.value.1, 1, 0).Ticks() < cutoff.Ticks());
  }

  /** Exactly the names whose month lies before the month of `now` less the window. */
  method Expired(names: seq<string>, now: Moment, months: int) returns (r: Result<seq<string>, DateError>)
    requires now.Valid()
    ensures r.Ok? <==> WindowOk(now.Index(), months) && forall i :: 0 <= i < |names| ==> !NotAMonth(names[i])
    ensures r.Ok? ==> r.value == NamesBefore(names, now.Index() - months)
  {
    var cutoff := MonthsAgo(now, months);
    if cutoff.Err? { return Err(OutOfRange); }
    var out := [];
    for i := 0 to |names|
      invariant out == NamesBefore(names[..i], now.Index() - months)
      invariant forall j :: 0 <= j < i ==> !NotAMonth(names[j])
    {
      NamesBeforeMore(names, i, now.Index() - months);
      var stale := IsExpired(names[i], cutoff.value);
      if stale.Err? { return Err(OutOfRange); }
      if stale.value { out := out + [names[i]]; }
    }
    assert names[..|names|] == names;
    r := Ok(out);
  }

  lemma {:induction false} NamesBeforeAre(names: seq<string>, cutoff: int, name: string)
    ensures name in NamesBefore(names, cutoff) <==> name in names && NameBefore(name, cutoff)
  {
    if names != [] {
      NamesBeforeAre(names[..|names| - 1], cutoff, name);
      assert names == names[..|names| - 1] + [names[|names| - 1]];
    }
  }

  function NameOfMonth(m: nat): string
    requires HasPartitionName(m)
  {
    NameOf(m / 12, m % 12 + 1)
  }

  lemma NameOfMonthBefore(m: nat, cutoff: int)
    requires HasPartitionName(m)
    ensures MatchName(NameOfMonth(m)) == Some((m / 12, m % 12 + 1))
    ensures NameBefore(NameOfMonth(m), cutoff) <==> m < cutoff
    ensures !NotAMonth(NameOfMonth(m))
  {
    NameRoundTrip(m / 12, m % 12 + 1);
  }

  ghost predicate NamesPartition(partitions: set<nat>, name: string)
    requires PartitionsOk(partitions)
  {
    exists m :: m in partitions && name == NameOfMonth(m)
  }

  /** The names of the existing partitions, as the catalog lists them. */
  method ListPartitions(session: Session) returns (names: seq<string>)
    requires PartitionsOk(session.db.partitions)
    ensures forall m :: m in session.db.partitions ==> NameOfMonth(m) in names
    ensures forall i :: 0 <= i < |names| ==> NamesPartition(session.db.partitions, names[i])
  {
    names := [];
    var rest := session.db.partitions;
    while rest != {}
      invariant rest <= session.db.partitions
      invariant forall m :: m in session.db.partitions && m !in rest ==> NameOfMonth(m) in names
      invariant forall i :: 0 <= i < |names| ==> NamesPartition(session.db.partitions, names[i])
      decreases rest
    {
      var m :| m in rest;
      names, rest := names + [NameOfMonth(m)], rest - {m};
    }
  }

  // ---- dropping ---------------------------------------------------------------------

  function WithoutMonths(s: Store, gone: set<nat>): Store {
    s.(partitions := s.partitions - gone,
       events := map id | id in s.events && MonthOf(s.events[id].touchedAt) !in gone :: s.events[id])
  }

  /** `DROP TABLE IF EXISTS` on a partition: the partition goes with its rows. */
  function DropTable(s: Store, name: string): Store {
    match MatchName(name)
    case None => s
    case Some((year, month)) =>
      if 1 <= month <= 12 && 12 * year + month - 1 in s.partitions then WithoutMonths(s, {12 * year + month - 1}) else s
  }

  function WindowOf(cfg: Config, months: Option<int>): int {
    if months.Some? then months.value else cfg.retentionMonths
  }

  /** Everything that was last touched before the window goes, and nothing else. */
  function DropSpec(cfg: Config, s: Store, months: Option<int>, now: nat): Outcome<Store> {
    var window := WindowOf(cfg, months);
    if WindowOk(MonthOf(now), window)
    then Done(WithoutMonths(s, set m | m in s.partitions && m < MonthOf(now) - window))
    else Refused(Invalid)
  }

  lemma DropMore(s: Store, gone: set<nat>, m: nat)
    requires HasPartitionName(m) && m in s.partitions
    ensures DropTable(WithoutMonths(s, gone), NameOfMonth(m)) == WithoutMonths(s, gone + {m})
  {
    NameOfMonthBefore(m, 0);
    var t := WithoutMonths(s, gone);
    assert WithoutMonths(t, {m}) == WithoutMonths(s, gone + {m}) by {
      assert WithoutMonths(t, {m}).partitions == WithoutMonths(s, gone + {m}).partitions;
      assert WithoutMonths(t, {m}).events == WithoutMonths(s, gone + {m}).events;
    }
    if m in gone {
      assert gone + {m} == gone;
      assert DropTable(t, NameOfMonth(m)) == t;
    }
  }

  /** The months of a list of partition names. */
  ghost function MonthsNamed(partitions: set<nat>, names: seq<string>): set<nat>
    requires PartitionsOk(partitions)
  {
    set m | m in partitions && NameOfMonth(m) in names
  }

  method DropTables(session: Session, names: seq<string>)
    requires PartitionsOk(session.db.partitions)
    requires forall i :: 0 <= i < |names| ==> NamesPartition(session.db.partitions, names[i])
    modifies session
    ensures session.db == WithoutMonths(old(session.db), MonthsNamed(old(session.db.partitions), names))
  {
    ghost var s := session.db;
    assert MonthsNamed(s.partitions, []) == {};
    assert WithoutMonths(s, {}) == s;
    for i := 0 to |names|
      invariant session.db == WithoutMonths(s, MonthsNamed(s.partitions, names[..i]))
    {
      assert NamesPartition(s.partitions, names[i]);
      ghost var m :| m in s.partitions && names[i] == NameOfMonth(m);
      OneMoreMonth(s.partitions, names[..i], m);
      DropMore(s, MonthsNamed(s.partitions, names[..i]), m);
      assert names[..i + 1] == names[..i] + [names[i]];
      session.db := DropTable(session.db, names[i]);
    }
    assert names[..|names|] == names;
  }

  lemma OneMoreMonth(partitions: set<nat>, names: seq<string>, m: nat)
    requires PartitionsOk(partitions) && m in partitions
    ensures MonthsNamed(partitions, names + [NameOfMonth(m)]) == MonthsNamed(partitions, names) + {m}
  {
    forall n | n in partitions && NameOfMonth(n) == NameOfMonth(m) ensures n == m {
      NameOfMonthBefore(m, 0);
      NameOfMonthBefore(n, 0);
    }
  }

  /** Of a complete listing, the expired names are those of the months before the cutoff. */
  lemma ExpiredMonths(partitions: set<nat>, names: seq<string>, cutoff: int)
    requires PartitionsOk(partitions)
    requires forall m :: m in partitions ==> NameOfMonth(m) in names
    requires forall i :: 0 <= i < |names| ==> NamesPartition(partitions, names[i])
    ensures MonthsNamed(partitions, NamesBefore(names, cutoff)) == set m | m in partitions && m < cutoff
    ensures forall i :: 0 <= i < |NamesBefore(names, cutoff)| ==> NamesPartition(partitions, NamesBefore(names, cutoff)[i])
    ensures forall i :: 0 <= i < |names| ==> !NotAMonth(names[i])
  {
    var stale := NamesBefore(names, cutoff);
    forall m | m in partitions ensures NameOfMonth(m) in stale <==> m < cutoff {
      NamesBeforeAre(names, cutoff, NameOfMonth(m));
      NameOfMonthBefore(m, cutoff);
    }
    forall i | 0 <= i < |stale| ensures NamesPartition(partitions, stale[i]) {
      NamesBeforeAre(names, cutoff, stale[i]);
    }
    forall i | 0 <= i < |names| ensures !NotAMonth(names[i]) {
      assert NamesPartition(partitions, names[i]);
      var m :| m in partitions && names[i] == NameOfMonth(m);
      NameOfMonthBefore(m, 0);
    }
  }

  /** The name of an existing partition of a month before the cutoff. */
  ghost predicate NamesMonthBefore(partitions: set<nat>, name: string, cutoff: int)
    requires PartitionsOk(partitions)
  {
    exists m :: m in partitions && m < cutoff && name == NameOfMonth(m)
  }

  lemma ExpiredNames(partitions: set<nat>, names: seq<string>, cutoff: int)
    requires PartitionsOk(partitions)
    requires forall m :: m in partitions ==> NameOfMonth(m) in names
    requires forall i :: 0 <= i < |names| ==> NamesPartition(partitions, names[i])
    ensures forall name :: name in NamesBefore(names, cutoff) <==> NamesMonthBefore(partitions, name, cutoff)
  {
    forall name ensures name in NamesBefore(names, cutoff) <==> NamesMonthBefore(partitions, name, cutoff) {
      NamesBeforeAre(names, cutoff, name);
      if name in names {
        var i :| 0 <= i < |names| && names[i] == name;
        assert NamesPartition(partitions, names[i]);
      }
      forall m | m in partitions { NameOfMonthBefore(m, cutoff); }
    }
  }

  method DropIdlePartitions(session: Session, cfg: Config, months: Option<int>, now: nat) returns (r: Outcome<seq<string>>)
    requires InYears(MonthOf(now)) && PartitionsOk(session.db.partitions)
    modifies session
    ensures r.Done? <==> DropSpec(cfg, old(session.db), months, now).Done?
    ensures r.Done? ==> session.db == DropSpec(cfg, old(session.db), months, now).value
    ensures r.Done? ==>
              forall name :: name in r.value <==> NamesMonthBefore(old(session.db.partitions), name, MonthOf(now) - WindowOf(cfg, months))
    ensures !r.Crashed?
  {
    var window := WindowOf(cfg, months);
    var names := ListPartitions(session);
    MomentRoundTrip(now);
    ExpiredMonths(session.db.partitions, names, MonthOf(now) - window);
    var expired := Expired(names, MomentAt(now), window);
    if expired.Err? { return Refused(Invalid); }
    DropOfExpired(cfg, session.db, months, now, expired.value);
    ExpiredNames(session.db.partitions, names, MonthOf(now) - window);
    DropTables(session, expired.value);
    r := Done(expired.value);
  }

  lemma DropOfExpired(cfg: Config, s: Store, months: Option<int>, now: nat, stale: seq<string>)
    requires PartitionsOk(s.partitions) && WindowOk(MonthOf(now), WindowOf(cfg, months))
    requires MonthsNamed(s.partitions, stale) == set m | m in s.partitions && m < MonthOf(now) - WindowOf(cfg, months)
    ensures DropSpec(cfg, s, months, now) == Done(WithoutMonths(s, MonthsNamed(s.partitions, stale)))
  {
  }

  /** A row is removed by a drop run exactly when the month of its last touch lies more than the
      window before the month of the run. */
  lemma DropIsExact(cfg: Config, s: Store, months: Option<int>, now: nat, id: EventId)
    requires EventsOk(s) && id in s.events
    requires DropSpec(cfg, s, months, now).Done?
    ensures id in DropSpec(cfg, s, months, now).value.events
            <==> MonthOf(now) <= MonthOf(s.events[id].touchedAt) + WindowOf(cfg, months)
    ensures id in DropSpec(cfg, s, months, now).value.events ==>
              DropSpec(cfg, s, months, now).value.events[id] == s.events[id]
  {
  }

  /** A drop run removes the partitions before the window, exactly those, and nothing but them and their
      rows. */
  lemma DropRemovesPartitions(cfg: Config, s: Store, months: Option<int>, now: nat, m: nat)
    requires DropSpec(cfg, s, months, now).Done?
    ensures var u, window := DropSpec(cfg, s, months, now).value, if months.Some? then months.value else cfg.retentionMonths;
            && (m in u.partitions <==> m in s.partitions && MonthOf(now) <= m + window)
            && u == s.(partitions := u.partitions, events := u.events)
  {
  }
}
