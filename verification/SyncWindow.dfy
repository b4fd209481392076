/** Weekly windows that gate auto-sync, evaluated in UTC. */
module SyncWindow {

  /** `days` empty means every day; equal hours (only 0/0 is valid) mean the whole day. */
  datatype Window = Window(kind: string, days: seq<string>, startHour: int, endHour: int)

  const WEEKDAYS := ["Sun", "Mon", "Tue", "Wed", "Thu", "Fri", "Sat"]

  /** Instants are nanoseconds since the Unix epoch, a Thursday. */
  const HOUR: int := 3_600_000_000_000

  function HourNumber(t: int): int { t / HOUR }

  function DayNumber(t: int): int { HourNumber(t) / 24 }

  function HourOfDay(t: int): int { HourNumber(t) % 24 }

  /** Name of the day with number `n`, counted from the epoch's. */
  function WeekdayOf(n: int): string { WEEKDAYS[(n + 4) % 7] }

  /** A kind, named days, and hours of a day that differ unless both are zero. */
  ghost predicate Valid(w: Window) {
    && (w.kind == "allow" || w.kind == "deny")
    && (forall d | d in w.days :: exists n :: d == DayName(n))
    && 0 <= w.startHour <= 24 && 0 <= w.endHour <= 24
    && (w.startHour == w.endHour ==> w.startHour == 0 == w.endHour)
  }

  method Validate(w: Window) returns (ok: bool)
    ensures ok <==> Valid(w)
  {
    if w.kind != "allow" && w.kind != "deny" { return false; }
    for i := 0 to |w.days|
      invariant forall d | d in w.days[..i] :: exists n :: d == DayName(n)
    {
      DaysAreNamed(w.days[i]);
      if w.days[i] !in WEEKDAYS {
        assert w.days[i] in w.days;
        return false;
      }
      assert w.days[..i + 1] == w.days[..i] + [w.days[i]];
    }
    assert w.days[..|w.days|] == w.days;
    if w.startHour < 0 || w.startHour > 24 || w.endHour < 0 || w.endHour > 24 { return false; }
    ok := !(w.startHour == w.endHour && w.startHour != 0);
  }

  lemma DaysAreNamed(d: string)
    ensures d in WEEKDAYS <==> exists n :: d == DayName(n)
  {
    assert DayName(0) == "Thu" && DayName(1) == "Fri" && DayName(2) == "Sat" && DayName(3) == "Sun";
    assert DayName(4) == "Mon" && DayName(5) == "Tue" && DayName(6) == "Wed";
    assert WEEKDAYS[0] == "Sun" && WEEKDAYS[1] == "Mon" && WEEKDAYS[2] == "Tue" && WEEKDAYS[3] == "Wed";
    assert WEEKDAYS[4] == "Thu" && WEEKDAYS[5] == "Fri" && WEEKDAYS[6] == "Sat";
  }

  predicate DayMatches(w: Window, weekday: string) {
    w.days == [] || weekday in w.days
  }

  predicate Matches(w: Window, t: int) {
    var today := WeekdayOf(DayNumber(t));
    var hour := HourOfDay(t);
    if w.startHour == w.endHour then DayMatches(w, today)
    else if w.startHour < w.endHour then DayMatches(w, today) && w.startHour <= hour && hour < w.endHour
    else if hour >= w.startHour then DayMatches(w, today)
    else if hour < w.endHour then DayMatches(w, WeekdayOf(DayNumber(t) - 1))
    else false
  }

  /** Hours from the start of day `n` at which the window of that day ends. */
  function EndOffset(w: Window): int {
    if w.startHour == w.endHour then 24 else if w.startHour < w.endHour then w.endHour else w.endHour + 24
  }

  /** Day 0 is the epoch's, a Thursday. */
  ghost function DayName(n: int): string {
    match n % 7
    case 0 => "Thu"
    case 1 => "Fri"
    case 2 => "Sat"
    case 3 => "Sun"
    case 4 => "Mon"
    case 5 => "Tue"
    case _ => "Wed"
  }

  /** The instant lies in the stretch of time that the window opens on day `n`. */
  ghost predicate OpenOnDay(w: Window, n: int, t: int) {
    && (w.days == [] || DayName(n) in w.days)
    && (24 * n + w.startHour) * 3_600_000_000_000 <= t < (24 * n + EndOffset(w)) * 3_600_000_000_000
  }

  lemma WeekdaysCycle(n: int)
    ensures WeekdayOf(n) == DayName(n)
  {
  }

  /** Only today's and yesterday's windows can contain an instant. */
  lemma OpenDayIsNear(w: Window, n: int, t: int)
    requires Valid(w) && OpenOnDay(w, n, t)
    ensures n == DayNumber(t) || n == DayNumber(t) - 1
    ensures 24 * n + w.startHour <= HourNumber(t) < 24 * n + EndOffset(w)
  {
    var h := HourNumber(t);
    assert h * HOUR <= t < (h + 1) * HOUR;
  }

  lemma HoursDecideOpen(w: Window, n: int, t: int)
    requires (w.days == [] || DayName(n) in w.days) && 24 * n + w.startHour <= HourNumber(t) < 24 * n + EndOffset(w)
    ensures OpenOnDay(w, n, t)
  {
    var h := HourNumber(t);
    assert h * HOUR <= t < (h + 1) * HOUR;
  }

  /** A valid window matches exactly the instants inside one of its weekly stretches, across midnight included. */
  lemma MatchesIsMembership(w: Window, t: int)
    requires Valid(w)
    ensures Matches(w, t) <==> exists n :: OpenOnDay(w, n, t)
  {
    var day, hour := DayNumber(t), HourOfDay(t);
    assert HourNumber(t) == 24 * day + hour;
    WeekdaysCycle(day);
    WeekdaysCycle(day - 1);
    if Matches(w, t) {
      var n := if w.startHour > w.endHour && hour < w.startHour then day - 1 else day;
      HoursDecideOpen(w, n, t);
    }
    if exists n :: OpenOnDay(w, n, t) {
      var n :| OpenOnDay(w, n, t);
      OpenDayIsNear(w, n, t);
    }
  }

  ghost predicate SomeMatch(windows: seq<Window>, kind: string, t: int) {
    exists w | w in windows :: w.kind == kind && Matches(w, t)
  }

  /** Deny wins; without any allow window everything else is open; otherwise one must match. */
  ghost predicate Permits(windows: seq<Window>, t: int) {
    && !SomeMatch(windows, "deny", t)
    && ((forall w | w in windows :: w.kind != "allow") || SomeMatch(windows, "allow", t))
  }

  method WindowsAllow(windows: seq<Window>, t: int) returns (allowed: bool)
    ensures allowed <==> Permits(windows, t)
  {
    var hasAllow, allowMatched := false, false;
    for n := 0 to |windows|
      invariant !SomeMatch(windows[..n], "deny", t)
      invariant hasAllow <==> exists w | w in windows[..n] :: w.kind == "allow"
      invariant allowMatched <==> SomeMatch(windows[..n], "allow", t)
    {
      var w := windows[n];
      assert w in windows && windows[..n + 1] == windows[..n] + [w];
      if w.kind == "deny" {
        if Matches(w, t) {
          return false;
        }
      } else if w.kind == "allow" {
        hasAllow := true;
        if Matches(w, t) {
          allowMatched := true;
        }
      }
    }
    assert windows[..|windows|] == windows;
    return if hasAllow then allowMatched else true;
  }

  /** The answer depends on which windows are listed, not on their order or repetition. */
  lemma OrderIsIrrelevant(a: seq<Window>, b: seq<Window>, t: int)
    requires forall w :: w in a <==> w in b
    ensures Permits(a, t) <==> Permits(b, t)
  {
  }

  /** Adding a deny window never opens anything, and adding windows never overrides a deny. */
  lemma DenyIsFinal(a: seq<Window>, b: seq<Window>, t: int)
    requires SomeMatch(a, "deny", t) && forall w | w in a :: w in b
    ensures !Permits(b, t)
  {
    var w :| w in a && w.kind == "deny" && Matches(w, t);
    assert w in b;
  }
}
