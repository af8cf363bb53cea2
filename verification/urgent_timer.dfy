/** The 24-hour countdown shown on urgent tickets, as a function of integer milliseconds. */
module UrgentTimer {
  import opened Values
  import opened Text

  const HourMs: int := 60 * 60 * 1000
  const MinuteMs: int := 60 * 1000
  const SecondMs: int := 1000
  const DayMs: int := 24 * 60 * 60 * 1000

  /** The deadline of an urgent ticket: exactly 24 hours after its creation. */
  function DeadlineOf(createdAt: int): (r: int)
    ensures r - createdAt == 86400000
  {
    createdAt + DayMs
  }

  datatype TimeLeft = TimeLeft(hours: int, minutes: int, seconds: int)

  /** The state `calculateTimeLeft` stores. */
  datatype Tick = Tick(expired: bool, left: TimeLeft)

  /** Milliseconds left before the deadline at instant `now`. */
  function Remaining(createdAt: int, now: int): int {
    DeadlineOf(createdAt) - now
  }

  /** `h`, `m`, `s` are the whole hours, minutes and seconds of `diff`, remainders dropped. */
  predicate Decomposes(diff: int, t: TimeLeft) {
    && t.hours >= 0
    && 0 <= t.minutes < 60
    && 0 <= t.seconds < 60
    && t.hours * HourMs + t.minutes * MinuteMs + t.seconds * SecondMs <= diff
    && diff < t.hours * HourMs + t.minutes * MinuteMs + t.seconds * SecondMs + SecondMs
  }

  /**
   * `calculateTimeLeft`: expired with 0:0:0 when nothing remains; otherwise not
   * expired and the remaining time split into hours, minutes and seconds.
   */
  function Calculate(createdAt: int, now: int): (t: Tick)
    ensures t.expired <==> Remaining(createdAt, now) <= 0
    ensures t.expired ==> t.left == TimeLeft(0, 0, 0)
    ensures !t.expired ==> Decomposes(Remaining(createdAt, now), t.left)
  {
    var diff := Remaining(createdAt, now);
    if diff <= 0 then Tick(true, TimeLeft(0, 0, 0))
    else
      var hours := diff / HourMs;
      var minutes := (diff % HourMs) / MinuteMs;
      var seconds := (diff % MinuteMs) / SecondMs;
      SplitDecomposes(diff);
      Tick(false, TimeLeft(hours, minutes, seconds))
  }

  /** Whole hours, then minutes of the hour's remainder, then seconds of the minute's remainder. */
  lemma SplitDecomposes(diff: int)
    requires diff > 0
    ensures Decomposes(diff, TimeLeft(diff / HourMs, (diff % HourMs) / MinuteMs, (diff % MinuteMs) / SecondMs))
  {
    var h := diff / 3600000;
    var r1 := diff % 3600000;
    assert diff == h * 3600000 + r1;
    var m := r1 / 60000;
    var r2 := r1 % 60000;
    assert r1 == m * 60000 + r2;
    assert diff == (h * 60 + m) * 60000 + r2;
    MinuteRemainder(h * 60 + m, r2);
    assert diff % 60000 == r2;
    var s := r2 / 1000;
    assert r2 == s * 1000 + r2 % 1000;
  }

  /** Whole minutes plus a sub-minute remainder leave that remainder modulo a minute. */
  lemma MinuteRemainder(q: int, r: int)
    requires 0 <= r < 60000
    ensures (q * 60000 + r) % 60000 == r
  {
  }

  /** There is only one such split: any decomposition of the remaining time is the computed one. */
  lemma DecompositionUnique(createdAt: int, now: int, t: TimeLeft)
    requires Remaining(createdAt, now) > 0
    requires Decomposes(Remaining(createdAt, now), t)
    ensures Calculate(createdAt, now).left == t
  {
    var diff := Remaining(createdAt, now);
    var u := Calculate(createdAt, now).left;
    var a := t.hours * 3600 + t.minutes * 60 + t.seconds;
    var b := u.hours * 3600 + u.minutes * 60 + u.seconds;
    assert a * 1000 <= diff < a * 1000 + 1000;
    assert b * 1000 <= diff < b * 1000 + 1000;
    assert a == b;
    assert t.hours == u.hours;
    assert t.minutes == u.minutes;
  }

  /** A countdown is shown in red when fewer than two hours remain. */
  predicate IsUrgent(t: TimeLeft) {
    t.hours < 2
  }

  /** `formatTime`: the decimal value left-padded with '0' to at least two characters. */
  function FormatTime(v: int): (r: string)
    ensures |IntToString(v)| >= 2 ==> r == IntToString(v)
    ensures |IntToString(v)| < 2 ==> |r| == 2 && r[0] == '0' && r[1..] == IntToString(v)
  {
    PadStart(IntToString(v), 2, '0')
  }

  datatype View = Nothing | ExpiredView | Clock(text: string, urgent: bool)

  /**
   * What the component renders for its stored state: nothing before the first
   * computation, "Expirado" once expired, else the "hh:mm:ss" clock.
   */
  function Render(state: Option<Tick>): (v: View)
    ensures state.None? <==> v.Nothing?
    ensures v.ExpiredView? <==> state.Some? && state.value.expired
    ensures v.Clock? ==> v.urgent == IsUrgent(state.value.left)
    ensures v.Clock? ==> v.text == FormatTime(state.value.left.hours) + ":"
                                   + FormatTime(state.value.left.minutes) + ":"
                                   + FormatTime(state.value.left.seconds)
  {
    match state
    case None => Nothing
    case Some(t) =>
      if t.expired then ExpiredView
      else Clock(FormatTime(t.left.hours) + ":" + FormatTime(t.left.minutes) + ":" + FormatTime(t.left.seconds),
                 IsUrgent(t.left))
  }

  lemma ClockTail(h: string, a: string, b: string)
    requires |a| == 2 && |b| == 2
    ensures var t := h + ":" + a + ":" + b;
      var n := |t|;
      n >= 6 && t[n - 6] == ':' && t[n - 3] == ':' && t[n - 5..n - 3] == a && t[n - 2..] == b
  {
    var t := h + ":" + a + ":" + b;
    assert t == h + (":" + a + ":" + b);
  }

  /** Minutes and seconds of a running countdown each fill exactly two characters that read back as their value. */
  lemma TwoDigitField(v: int)
    requires 0 <= v < 60
    ensures |FormatTime(v)| == 2 && ParseDecimal(FormatTime(v)) == v
  {
    TwoDigits(v);
    PaddedRoundTrip(v, 2);
  }

  /**
   * While running, the clock ends in ":mm:ss": two digits each that read back as the
   * minutes and seconds left.
   */
  lemma ClockReadsBack(createdAt: int, now: int)
    requires Remaining(createdAt, now) > 0
    ensures var t := Calculate(createdAt, now);
      var v := Render(Some(t));
      var n := |v.text|;
      && v.Clock?
      && n >= 8 && v.text[n - 6] == ':' && v.text[n - 3] == ':'
      && ParseDecimal(v.text[n - 5..n - 3]) == t.left.minutes
      && ParseDecimal(v.text[n - 2..]) == t.left.seconds
  {
    var t := Calculate(createdAt, now);
    TwoDigitField(t.left.minutes);
    TwoDigitField(t.left.seconds);
    var h := FormatTime(t.left.hours);
    ClockTail(h, FormatTime(t.left.minutes), FormatTime(t.left.seconds));
  }
}
