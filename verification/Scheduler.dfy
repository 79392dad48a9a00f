/** src/scheduler.c: the scheduled reboot, fired from a polling loop that remembers a day of the year. */
module Scheduler {

  // ---------- the calendar ----------

  /** Seconds of local time since the start of 1970, at a fixed offset from UTC. */
  type Time = nat

  const DAY: nat := 86400

  function DayOf(t: Time): nat {
    t / DAY
  }

  function HourOf(t: Time): nat {
    t / 3600 % 24
  }

  function MinuteOf(t: Time): nat {
    t / 60 % 60
  }

  predicate IsLeap(year: nat) {
    year % 4 == 0 && (year % 100 != 0 || year % 400 == 0)
  }

  function YearLength(year: nat): nat {
    if IsLeap(year) then 366 else 365
  }

  /** The day of the year, from 0, of the day that comes `days` days after the first of January of `year`. */
  function DayOfYear(days: nat, year: nat): (n: nat)
    ensures n < 366
    decreases days
  {
    if days < YearLength(year) then days else DayOfYear(days - YearLength(year), year + 1)
  }

  /** `tm_yday`. */
  function Yday(day: nat): (n: nat)
    ensures n < 366
  {
    DayOfYear(day, 1970)
  }

  lemma {:induction false} DayOfYearNext(days: nat, year: nat)
    ensures DayOfYear(days + 1, year) != DayOfYear(days, year)
    decreases days
  {
    if days >= YearLength(year) {
      DayOfYearNext(days - YearLength(year), year + 1);
    } else if days + 1 == YearLength(year) {
      assert DayOfYear(days + 1, year) == DayOfYear(0, year + 1) == 0;
    }
  }

  /** Consecutive days differ in their day of the year. */
  lemma NextDayDiffers(day: nat)
    ensures Yday(day + 1) != Yday(day)
  {
    DayOfYearNext(day, 1970);
  }

  // ---------- polls ----------

  /** The time of a poll and the configuration it reads. */
  datatype Poll = Poll(time: Time, enabled: bool, hour: int, minute: int)

  /** The poll falls into the scheduled minute. */
  predicate Due(p: Poll) {
    p.enabled && HourOf(p.time) == p.hour && MinuteOf(p.time) == p.minute
  }

  /** Poll `i` triggers the reboot. */
  predicate FiresAt(polls: seq<Poll>, i: nat)
    requires i < |polls|
    decreases i, 1
  {
    Due(polls[i]) && Yday(DayOf(polls[i].time)) != Last(polls, i)
  }

  /** `last_yday` after the first `n` polls. */
  function Last(polls: seq<Poll>, n: nat): (y: int)
    requires n <= |polls|
    ensures y >= -1
    decreases n, 0
  {
    if n == 0 then -1
    else if FiresAt(polls, n - 1) then Yday(DayOf(polls[n - 1].time))
    else Last(polls, n - 1)
  }

  /** The polling loop; the result says which polls trigger the reboot. */
  method SchedulerMain(polls: seq<Poll>) returns (fired: seq<bool>)
    ensures |fired| == |polls| && forall i: nat | i < |polls| :: fired[i] == FiresAt(polls, i)
  {
    var lastYday: int := -1;
    fired := [];
    var i := 0;
    while i < |polls|
      invariant i <= |polls| && |fired| == i
      invariant lastYday == Last(polls, i)
      invariant forall k: nat | k < i :: fired[k] == FiresAt(polls, k)
    {
      hide Yday, DayOf, HourOf, MinuteOf;
      var p := polls[i];
      i := i + 1;
      if !p.enabled {
        fired := fired + [false];
        continue;
      }
      if HourOf(p.time) == p.hour && MinuteOf(p.time) == p.minute && Yday(DayOf(p.time)) != lastYday {
        lastYday := Yday(DayOf(p.time));
        fired := fired + [true];
      } else {
        fired := fired + [false];
      }
    }
  }

  predicate Monotone(polls: seq<Poll>) {
    forall i: nat, j: nat | i < j < |polls| :: polls[i].time <= polls[j].time
  }

  // ---------- at most once a day ----------

  /** After a firing `last_yday` keeps its day of the year while the day lasts. */
  lemma {:induction false} LastKept(polls: seq<Poll>, i: nat, n: nat)
    requires i < n <= |polls| && FiresAt(polls, i)
    requires forall k: nat | i <= k < n :: DayOf(polls[k].time) == DayOf(polls[i].time)
    ensures Last(polls, n) == Yday(DayOf(polls[i].time))
    decreases n
  {
    hide Yday, DayOf, Due;
    if n > i + 1 {
      LastKept(polls, i, n - 1);
    }
  }

  /** Whatever happens to the schedule, no day has two firings. */
  lemma OncePerDay(polls: seq<Poll>, i: nat, j: nat)
    requires Monotone(polls) && i < j < |polls| && FiresAt(polls, i) && FiresAt(polls, j)
    ensures DayOf(polls[i].time) != DayOf(polls[j].time)
  {
    hide Yday, Due;
    if DayOf(polls[i].time) == DayOf(polls[j].time) {
      SameDay(polls, i, j);
      hide DayOf;
      LastKept(polls, i, j);
    }
  }

  lemma SameDay(polls: seq<Poll>, i: nat, j: nat)
    requires Monotone(polls) && i < j < |polls| && DayOf(polls[i].time) == DayOf(polls[j].time)
    ensures forall k: nat | i <= k < j :: DayOf(polls[k].time) == DayOf(polls[i].time)
  {
    forall k: nat | i <= k < j ensures DayOf(polls[k].time) == DayOf(polls[i].time) {
      assert polls[k].time <= polls[j].time;
      assert i < k ==> polls[i].time <= polls[k].time;
    }
  }

  // ---------- at least once a day ----------

  /** An enabled schedule that nobody edits. */
  predicate Unchanged(polls: seq<Poll>, hour: int, minute: int) {
    forall i: nat | i < |polls| :: polls[i].enabled && polls[i].hour == hour && polls[i].minute == minute
  }

  predicate GapsUpTo(polls: seq<Poll>, gap: nat) {
    forall i: nat | i + 1 < |polls| :: polls[i + 1].time - polls[i].time <= gap
  }

  /** When the scheduled minute of a day begins. */
  function MinuteStart(day: int, hour: int, minute: int): int {
    day * 86400 + hour * 3600 + minute * 60
  }

  /** The day whose scheduled minute began last. */
  function LastDay(t: Time, hour: int, minute: int): int {
    (t - (hour * 3600 + minute * 60)) / 86400
  }

  lemma LastDayBounds(t: Time, hour: int, minute: int)
    ensures var day := LastDay(t, hour, minute); MinuteStart(day, hour, minute) <= t < MinuteStart(day + 1, hour, minute)
  {}

  /** A poll reads the scheduled hour and minute exactly in the sixty seconds from the start of that minute. */
  lemma DueIff(t: Time, hour: int, minute: int)
    requires 0 <= hour < 24 && 0 <= minute < 60
    ensures HourOf(t) == hour && MinuteOf(t) == minute <==>
            LastDay(t, hour, minute) == DayOf(t) && t < MinuteStart(DayOf(t), hour, minute) + 60
  {
    var d, r := t / 86400, t % 86400;
    var h, m := r / 3600, r % 3600 / 60;
    ClockSplit(t, d, h, m, r % 60);
    MinuteSplit(d, h, m, r % 60, hour, minute);
    hide HourOf, MinuteOf, DayOf, LastDay;
  }

  /** The fields of a time given by them. */
  lemma ClockSplit(t: Time, d: nat, h: nat, m: nat, s: nat)
    requires t == 86400 * d + 3600 * h + 60 * m + s && h < 24 && m < 60 && s < 60
    ensures DayOf(t) == d && HourOf(t) == h && MinuteOf(t) == m
  {
    var hours, minutes := 24 * d + h, 60 * (24 * d + h) + m;
    Quotients(t, d, hours, minutes);
    assert hours % 24 == h && minutes % 60 == m;
  }

  lemma Quotients(t: Time, d: nat, hours: nat, minutes: nat)
    requires 86400 * d <= t < 86400 * d + 86400
    requires 3600 * hours <= t < 3600 * hours + 3600 && 60 * minutes <= t < 60 * minutes + 60
    ensures t / 86400 == d && t / 3600 == hours && t / 60 == minutes
  {}

  lemma MinuteSplit(d: nat, h: nat, m: nat, s: nat, hour: int, minute: int)
    requires h < 24 && m < 60 && s < 60 && 0 <= hour < 24 && 0 <= minute < 60
    ensures var t := 86400 * d + 3600 * h + 60 * m + s;
      h == hour && m == minute <==> LastDay(t, hour, minute) == d && t < MinuteStart(d, hour, minute) + 60
  {}

  /** With an unchanged schedule and no gap over a minute, `last_yday` is the day of the last scheduled minute. */
  lemma {:induction false} LastIsLastDay(polls: seq<Poll>, hour: int, minute: int, n: nat)
    requires Monotone(polls) && Unchanged(polls, hour, minute) && GapsUpTo(polls, 60)
    requires 0 <= hour < 24 && 0 <= minute < 60 && 0 < n <= |polls|
    ensures var day := LastDay(polls[n - 1].time, hour, minute);
      Last(polls, n) == -1 || (day >= 0 && Last(polls, n) == Yday(day))
    decreases n
  {
    hide Yday, HourOf, MinuteOf, LastDay;
    var t := polls[n - 1].time;
    DueIff(t, hour, minute);
    if FiresAt(polls, n - 1) || n == 1 {
    } else {
      LastIsLastDay(polls, hour, minute, n - 1);
      var before := polls[n - 2].time;
      var day := LastDay(before, hour, minute);
      assert before <= t <= before + 60;
      LastDayStep(before, t, hour, minute);
      if day >= 0 {
        NextDayDiffers(day);
      }
    }
  }

  /** Within a minute either no scheduled minute begins, or the next one does and is not over. */
  lemma LastDayStep(before: Time, t: Time, hour: int, minute: int)
    requires before <= t <= before + 60 && 0 <= hour < 24 && 0 <= minute < 60
    ensures var day := LastDay(before, hour, minute);
      LastDay(t, hour, minute) == day
      || (LastDay(t, hour, minute) == day + 1 == DayOf(t) && t < MinuteStart(DayOf(t), hour, minute) + 60)
  {
    LastDayBounds(before, hour, minute);
    LastDayBounds(t, hour, minute);
  }

  /** The first poll at or after a moment. */
  function FirstFrom(polls: seq<Poll>, from: int, i: nat): (k: nat)
    requires i < |polls| && polls[|polls| - 1].time >= from
    ensures i <= k < |polls| && polls[k].time >= from
    ensures forall j: nat | i <= j < k :: polls[j].time < from
    decreases |polls| - i
  {
    if polls[i].time >= from then i else FirstFrom(polls, from, i + 1)
  }

  /** Every scheduled minute that begins after the first poll, and that the polls reach, contains exactly one firing. */
  lemma ExactlyOnce(polls: seq<Poll>, hour: int, minute: int, day: nat)
    requires Monotone(polls) && Unchanged(polls, hour, minute) && GapsUpTo(polls, 60)
    requires 0 <= hour < 24 && 0 <= minute < 60 && polls != []
    requires polls[0].time < MinuteStart(day, hour, minute) <= polls[|polls| - 1].time
    ensures exists i: nat ::
      && i < |polls| && FiresAt(polls, i)
      && MinuteStart(day, hour, minute) <= polls[i].time < MinuteStart(day, hour, minute) + 60
      && forall j: nat | j < |polls| && FiresAt(polls, j) && j != i :: DayOf(polls[j].time) != day
  {
    hide Yday, HourOf, MinuteOf, DayOf;
    var begin := MinuteStart(day, hour, minute);
    var i := FirstFrom(polls, begin, 0);
    var before, t := polls[i - 1].time, polls[i].time;
    assert t - before <= 60;
    MinuteFacts(before, t, hour, minute, day);
    DueIff(t, hour, minute);
    LastIsLastDay(polls, hour, minute, i);
    if day > 0 {
      NextDayDiffers(day - 1);
    }
    assert FiresAt(polls, i);
    forall j: nat | j < |polls| && FiresAt(polls, j) && j != i ensures DayOf(polls[j].time) != day {
      if j < i {
        OncePerDay(polls, j, i);
      } else {
        OncePerDay(polls, i, j);
      }
    }
  }

  lemma MinuteFacts(before: Time, t: Time, hour: int, minute: int, day: nat)
    requires 0 <= hour < 24 && 0 <= minute < 60
    requires before < MinuteStart(day, hour, minute) <= t <= before + 60
    ensures DayOf(t) == day && LastDay(t, hour, minute) == day && t < MinuteStart(day, hour, minute) + 60
    ensures LastDay(before, hour, minute) == day - 1
  {}

  // ---------- what the remembered day of the year costs ----------

  /** A due poll after a firing fires exactly when its day of the year differs from that of the last firing. */
  lemma {:induction false} DueFiresIff(polls: seq<Poll>, i: nat, j: nat)
    requires i < j < |polls| && FiresAt(polls, i) && Due(polls[j])
    requires forall k: nat | i < k < j :: !FiresAt(polls, k)
    ensures FiresAt(polls, j) <==> Yday(DayOf(polls[i].time)) != Yday(DayOf(polls[j].time))
  {
    hide Yday, DayOf, Due;
    LastUntil(polls, i, j);
  }

  lemma {:induction false} LastUntil(polls: seq<Poll>, i: nat, n: nat)
    requires i < n <= |polls| && FiresAt(polls, i)
    requires forall k: nat | i < k < n :: !FiresAt(polls, k)
    ensures Last(polls, n) == Yday(DayOf(polls[i].time))
    decreases n
  {
    hide Yday, DayOf, Due;
    if n > i + 1 {
      LastUntil(polls, i, n - 1);
    }
  }

  /** So a schedule that fired, and was then off until a day with the same number, does not fire on that day. */
  lemma MissedAfterAYear(polls: seq<Poll>, i: nat, j: nat)
    requires i < j < |polls| && FiresAt(polls, i) && Due(polls[j])
    requires forall k: nat | i < k < j :: !polls[k].enabled
    requires Yday(DayOf(polls[i].time)) == Yday(DayOf(polls[j].time))
    ensures !FiresAt(polls, j)
  {
    hide Yday, DayOf, HourOf, MinuteOf;
    DueFiresIff(polls, i, j);
  }

  /** One poll a minute from one o'clock on New Year's Day of 1970 to the same time a year later. */
  function YearOfPolls(): (polls: seq<Poll>)
    ensures |polls| == 365 * 1440 + 1
  {
    seq(365 * 1440 + 1, k requires 0 <= k < 365 * 1440 + 1 => Poll(3600 + 60 * k, k == 0 || k == 365 * 1440, 1, 0))
  }

  /** The loop can receive such polls: the schedule, off in between, fires on the first day and not a year later. */
  lemma YearIsMissed()
    ensures var polls, last := YearOfPolls(), 365 * 1440;
      && Monotone(polls) && GapsUpTo(polls, 60)
      && FiresAt(polls, 0) && Due(polls[last]) && !FiresAt(polls, last)
      && DayOf(polls[last].time) == DayOf(polls[0].time) + 365
  {
    var polls, last := YearOfPolls(), 365 * 1440;
    ClockSplit(3600, 0, 1, 0, 0);
    ClockSplit(polls[last].time, 365, 1, 0, 0);
    assert DayOfYear(365, 1970) == DayOfYear(0, 1971) == 0;
    hide DayOf, HourOf, MinuteOf, Yday, YearOfPolls;
    assert Yday(0) == Yday(365);
    assert FiresAt(polls, 0);
    MissedAfterAYear(polls, 0, last);
  }

  // ---------- several lives of the process ----------

  /** A process that reads these polls fires on the day. */
  ghost predicate FiresOn(polls: seq<Poll>, day: nat) {
    exists i: nat :: i < |polls| && FiresAt(polls, i) && DayOf(polls[i].time) == day
  }

  ghost predicate DueOn(polls: seq<Poll>, day: nat) {
    exists i: nat :: i < |polls| && Due(polls[i]) && DayOf(polls[i].time) == day
  }

  /** Its last firing before the day was on a day with the same number. */
  ghost predicate Remembers(polls: seq<Poll>, day: nat) {
    exists k: nat :: k < |polls| && RemembersAt(polls, day, k)
  }

  ghost predicate RemembersAt(polls: seq<Poll>, day: nat, k: nat)
    requires k < |polls|
  {
    && FiresAt(polls, k) && DayOf(polls[k].time) < day && Yday(DayOf(polls[k].time)) == Yday(day)
    && forall m: nat | k < m < |polls| && DayOf(polls[m].time) < day :: !FiresAt(polls, m)
  }

  /** The last firing before poll `n`. */
  lemma {:induction false} LastIsOf(polls: seq<Poll>, n: nat) returns (k: nat)
    requires n <= |polls| && Last(polls, n) != -1
    ensures k < n && FiresAt(polls, k) && Last(polls, n) == Yday(DayOf(polls[k].time))
    ensures forall m: nat | k < m < n :: !FiresAt(polls, m)
    decreases n
  {
    hide Yday, DayOf, Due;
    if FiresAt(polls, n - 1) {
      k := n - 1;
    } else {
      k := LastIsOf(polls, n - 1);
    }
  }

  lemma {:induction false} NoneFired(polls: seq<Poll>, n: nat)
    requires n <= |polls| && Last(polls, n) == -1
    ensures forall m: nat | m < n :: !FiresAt(polls, m)
    decreases n
  {
    hide Yday, DayOf, Due;
    if n > 0 {
      NoneFired(polls, n - 1);
    }
  }

  /** The first due poll of a day. */
  lemma FirstDue(polls: seq<Poll>, day: nat, n: nat) returns (i: nat)
    requires n < |polls| && Due(polls[n]) && DayOf(polls[n].time) == day
    ensures i <= n && Due(polls[i]) && DayOf(polls[i].time) == day
    ensures forall m: nat | m < i && DayOf(polls[m].time) == day :: !Due(polls[m])
    decreases n
  {
    hide DayOf, Due;
    if m: nat :| m < n && Due(polls[m]) && DayOf(polls[m].time) == day {
      i := FirstDue(polls, day, m);
    } else {
      i := n;
    }
  }

  /** A process fires on exactly the days on which it is due, except where it takes the day for one it remembers. */
  lemma FiresOnIff(polls: seq<Poll>, day: nat)
    requires Monotone(polls)
    ensures FiresOn(polls, day) <==> DueOn(polls, day) && !Remembers(polls, day)
  {
    hide Yday, DayOf, Due;
    if DueOn(polls, day) {
      var n: nat :| n < |polls| && Due(polls[n]) && DayOf(polls[n].time) == day;
      var i := FirstDue(polls, day, n);
      EarlierDays(polls, i);
      if Last(polls, i) == -1 {
        NoneFired(polls, i);
        assert FiresAt(polls, i);
        NotRemembered(polls, day, i);
      } else {
        var k := LastIsOf(polls, i);
        FirstDueDecides(polls, day, i, k);
      }
    }
  }

  lemma EarlierDays(polls: seq<Poll>, i: nat)
    requires Monotone(polls) && i < |polls|
    ensures forall m: nat | m < i :: DayOf(polls[m].time) <= DayOf(polls[i].time)
    ensures forall m: nat | i < m < |polls| :: DayOf(polls[m].time) >= DayOf(polls[i].time)
  {
    forall m: nat | m < i ensures DayOf(polls[m].time) <= DayOf(polls[i].time) {
      assert polls[m].time <= polls[i].time;
    }
    forall m: nat | i < m < |polls| ensures DayOf(polls[m].time) >= DayOf(polls[i].time) {
      assert polls[i].time <= polls[m].time;
    }
  }

  lemma NotRemembered(polls: seq<Poll>, day: nat, i: nat)
    requires i < |polls| && DayOf(polls[i].time) == day && forall m: nat | m < i :: !FiresAt(polls, m)
    requires forall m: nat | i < m < |polls| :: DayOf(polls[m].time) >= day
    ensures !Remembers(polls, day)
  {
    hide Yday, DayOf, Due;
  }

  /** `k` is the last firing before the first due poll `i` of the day. */
  lemma FirstDueDecides(polls: seq<Poll>, day: nat, i: nat, k: nat)
    requires Monotone(polls) && k < i < |polls| && FiresAt(polls, k) && Last(polls, i) == Yday(DayOf(polls[k].time))
    requires Due(polls[i]) && DayOf(polls[i].time) == day
    requires forall m: nat | k < m < i :: !FiresAt(polls, m)
    requires forall m: nat | m < i && DayOf(polls[m].time) == day :: !Due(polls[m])
    requires forall m: nat | m < i :: DayOf(polls[m].time) <= day
    requires forall m: nat | i < m < |polls| :: DayOf(polls[m].time) >= day
    ensures FiresOn(polls, day) <==> !Remembers(polls, day)
  {
    hide Yday, DayOf, Due;
    if Yday(DayOf(polls[k].time)) == Yday(day) {
      assert RemembersAt(polls, day, k);
      StaysSilent(polls, day, i, k);
    } else {
      assert FiresAt(polls, i);
      if Remembers(polls, day) {
        var r: nat :| r < |polls| && RemembersAt(polls, day, r);
        assert false;
      }
    }
  }

  /** While it remembers the number of the day, no poll of the day fires. */
  lemma StaysSilent(polls: seq<Poll>, day: nat, i: nat, k: nat)
    requires Monotone(polls) && k < i < |polls| && FiresAt(polls, k) && Yday(DayOf(polls[k].time)) == Yday(day)
    requires DayOf(polls[i].time) == day && forall m: nat | k < m < i :: !FiresAt(polls, m)
    requires forall m: nat | m < i && DayOf(polls[m].time) == day :: !Due(polls[m])
    ensures !FiresOn(polls, day)
  {
    hide Yday, Due;
    forall m: nat | m < |polls| && DayOf(polls[m].time) == day ensures !FiresAt(polls, m) {
      if m == i {
        LastUntil(polls, k, i);
      } else if m > i {
        SameDay(polls, i, m);
        hide DayOf;
        SilentUpTo(polls, day, i, k, m);
      }
    }
  }

  lemma {:induction false} SilentUpTo(polls: seq<Poll>, day: nat, i: nat, k: nat, m: nat)
    requires k < i <= m < |polls| && FiresAt(polls, k) && Yday(DayOf(polls[k].time)) == Yday(day)
    requires forall j: nat | k < j < i :: !FiresAt(polls, j)
    requires forall j: nat | i <= j <= m :: DayOf(polls[j].time) == day
    ensures forall j: nat | k < j <= m :: !FiresAt(polls, j)
    decreases m
  {
    hide Yday, DayOf, Due;
    if m > i {
      SilentUpTo(polls, day, i, k, m - 1);
    }
    LastUntil(polls, k, m);
  }

  /** Days with the same number are at least 365 days apart. */
  lemma {:induction false} SameNumber(days: nat, gap: nat, year: nat)
    requires gap > 0 && DayOfYear(days + gap, year) == DayOfYear(days, year)
    ensures gap >= 365
    decreases days
  {
    if days >= YearLength(year) {
      SameNumber(days - YearLength(year), gap, year + 1);
    } else if days + gap >= YearLength(year) {
      NumberUpTo(days + gap - YearLength(year), year + 1);
    }
  }

  lemma {:induction false} NumberUpTo(days: nat, year: nat)
    ensures DayOfYear(days, year) <= days
    decreases days
  {
    if days >= YearLength(year) {
      NumberUpTo(days - YearLength(year), year + 1);
    }
  }

  /** A process that lives less than a year takes no day for another. */
  predicate ShortLived(polls: seq<Poll>) {
    forall i: nat, j: nat | i < j < |polls| :: DayOf(polls[j].time) - DayOf(polls[i].time) < 365
  }

  lemma ShortLivedFiresOnIff(polls: seq<Poll>, day: nat)
    requires Monotone(polls) && ShortLived(polls)
    ensures FiresOn(polls, day) <==> DueOn(polls, day)
  {
    hide Due, DayOf, Yday;
    FiresOnIff(polls, day);
    if DueOn(polls, day) && Remembers(polls, day) {
      var i: nat :| i < |polls| && Due(polls[i]) && DayOf(polls[i].time) == day;
      var k: nat :| k < |polls| && RemembersAt(polls, day, k);
      OtherDay(polls, day, i, k);
      assert false;
    }
  }

  lemma OtherDay(polls: seq<Poll>, day: nat, i: nat, k: nat)
    requires Monotone(polls) && ShortLived(polls) && i < |polls| && k < |polls|
    requires DayOf(polls[i].time) == day && DayOf(polls[k].time) < day
    ensures Yday(DayOf(polls[k].time)) != Yday(day)
  {
    var before := DayOf(polls[k].time);
    assert k < i by {
      EarlierDays(polls, i);
    }
    hide DayOf;
    assert day - before < 365;
    if Yday(before) == Yday(day) {
      SameNumber(before, day - before, 1970);
    }
  }

  /** A firing reboots the device, and the next process remembers nothing. Over any lives of the process a day has
      firings in two of them exactly when both poll in a scheduled minute of that day. */
  lemma TwoFiringsIff(lives: seq<seq<Poll>>, day: nat)
    requires forall a: nat | a < |lives| :: Monotone(lives[a]) && ShortLived(lives[a])
    ensures (exists a: nat, b: nat :: a < b < |lives| && FiresOn(lives[a], day) && FiresOn(lives[b], day)) <==>
            (exists a: nat, b: nat :: a < b < |lives| && DueOn(lives[a], day) && DueOn(lives[b], day))
  {
    hide FiresOn, DueOn, Monotone, ShortLived;
    forall a: nat | a < |lives| ensures FiresOn(lives[a], day) <==> DueOn(lives[a], day) {
      ShortLivedFiresOnIff(lives[a], day);
    }
  }

  /** So a boot that ends within the scheduled minute reboots the device a second time on that day. */
  lemma BootWithinMinute(day: nat, hour: nat, minute: nat, delay: nat)
    requires hour < 24 && minute < 60 && delay < 60
    ensures var begin := day * DAY + hour * 3600 + minute * 60;
      && FiresOn([Poll(begin, true, hour, minute)], day) && FiresOn([Poll(begin + delay, true, hour, minute)], day)
  {
    var begin := day * DAY + hour * 3600 + minute * 60;
    ClockSplit(begin, day, hour, minute, 0);
    ClockSplit(begin + delay, day, hour, minute, delay);
    hide DayOf, HourOf, MinuteOf, Yday;
    FiresAlone(Poll(begin, true, hour, minute), day);
    FiresAlone(Poll(begin + delay, true, hour, minute), day);
  }

  lemma FiresAlone(p: Poll, day: nat)
    requires Due(p) && DayOf(p.time) == day
    ensures FiresOn([p], day)
  {
    hide DayOf, Due, Yday;
    assert FiresAt([p], 0);
  }
}
