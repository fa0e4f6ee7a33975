/**
 * The exam countdown of src/components/dashboard/countdown.tsx: whole seconds until the exam,
 * split into days, hours, minutes and seconds, each shown with at least two digits.
 */
module Countdown {
  import opened Lookup
  import opened Text
  import Dates
  import JsMath

  datatype Clock = Clock(days: int, hours: int, minutes: int, seconds: int)

  const Zero := Clock(0, 0, 0, 0)

  /** The decomposition of `totalSeconds`; zeros once the exam has come. */
  function Decompose(totalSeconds: int): (c: Clock)
    ensures totalSeconds <= 0 ==> c == Zero
    ensures totalSeconds > 0 ==>
      && 0 <= c.days && 0 <= c.hours < 24 && 0 <= c.minutes < 60 && 0 <= c.seconds < 60
      && c.days * 86400 + c.hours * 3600 + c.minutes * 60 + c.seconds == totalSeconds
  {
    if totalSeconds <= 0 then Zero
    else
      var t := totalSeconds;
      var c := Clock(t / (3600 * 24), (t % (3600 * 24)) / 3600, (t % 3600) / 60, t % 60);
      assert (t % 86400) % 3600 == t % 3600 by { ModOfMod(t); }
      c
  }

  /** A day is a whole number of hours, so the seconds within the hour survive taking the
      seconds within the day. */
  lemma ModOfMod(t: int)
    ensures (t % 86400) % 3600 == t % 3600
  {
    var q := t / 86400;
    var r := t % 86400;
    assert t == (24 * q + r / 3600) * 3600 + r % 3600;
    QuotientUnique(t, 3600, t / 3600, t % 3600, 24 * q + r / 3600, r % 3600);
  }

  /** The clock is the only way to write the total with hours below 24 and minutes and seconds
      below 60. */
  lemma DecomposeUnique(t: int, c: Clock)
    requires t > 0 && 0 <= c.days && 0 <= c.hours < 24 && 0 <= c.minutes < 60 && 0 <= c.seconds < 60
    requires c.days * 86400 + c.hours * 3600 + c.minutes * 60 + c.seconds == t
    ensures Decompose(t) == c
  {
    var d := Decompose(t);
    var rest := c.hours * 3600 + c.minutes * 60 + c.seconds;
    var rest' := d.hours * 3600 + d.minutes * 60 + d.seconds;
    assert 0 <= rest < 86400 && 0 <= rest' < 86400;
    QuotientUnique(t, 86400, c.days, rest, d.days, rest');
    var low := c.minutes * 60 + c.seconds;
    var low' := d.minutes * 60 + d.seconds;
    QuotientUnique(rest, 3600, c.hours, low, d.hours, low');
    QuotientUnique(low, 60, c.minutes, c.seconds, d.minutes, d.seconds);
  }

  lemma QuotientUnique(t: int, m: int, q: int, r: int, q': int, r': int)
    requires m > 0 && 0 <= r < m && 0 <= r' < m && q * m + r == t && q' * m + r' == t
    ensures q == q' && r == r'
  {
    if q < q' {
      JsMath.MulLe(q + 1, q', m);
      assert false;
    } else if q' < q {
      JsMath.MulLe(q' + 1, q, m);
      assert false;
    }
  }

  /** What the card shows, from the exam date (if the profile has one) and the current time. */
  function TimeLeft(examDateMs: Option<int>, nowMs: int): (c: Clock)
    ensures examDateMs.None? ==> c == Zero
    ensures examDateMs.Some? ==> c == Decompose(Dates.DifferenceInSeconds(examDateMs.value, nowMs))
  {
    match examDateMs
    case None => Zero
    case Some(exam) => Decompose(Dates.DifferenceInSeconds(exam, nowMs))
  }

  /** Before the exam the clock adds up to the whole seconds remaining; from the exam on it reads
      zero. */
  lemma TimeLeftAddsUp(examDateMs: int, nowMs: int)
    ensures var c := TimeLeft(Some(examDateMs), nowMs);
      && (examDateMs - nowMs < 1000 ==> c == Zero)
      && (examDateMs - nowMs >= 1000 ==>
            var total := c.days * 86400 + c.hours * 3600 + c.minutes * 60 + c.seconds;
            total * 1000 <= examDateMs - nowMs < (total + 1) * 1000)
  {
  }

  /** `String(n).padStart(2, '0')` for each of the four fields. */
  function Display(c: Clock): seq<string> {
    [Pad2(IntToString(c.days)), Pad2(IntToString(c.hours)), Pad2(IntToString(c.minutes)),
     Pad2(IntToString(c.seconds))]
  }

  /** One field: digits that read back as its value, at least two of them, exactly two below 100. */
  lemma FieldShows(n: int)
    requires n >= 0
    ensures var s := Pad2(IntToString(n));
      |s| >= 2 && AllDigitsOf(s) && DigitsOf(s) == n && (n < 100 ==> |s| == 2)
  {
    Pad2Digits(n);
  }

  /** Every field of the clock shows as digits that read back as its value; hours, minutes and
      seconds take exactly two characters, and days at least two. */
  lemma DisplayShowsTheClock(t: int)
    ensures var c := Decompose(t);
      var shown := Display(c);
      && |shown| == 4
      && |shown[0]| >= 2 && |shown[1]| == 2 && |shown[2]| == 2 && |shown[3]| == 2
      && AllDigitsOf(shown[0]) && AllDigitsOf(shown[1]) && AllDigitsOf(shown[2]) && AllDigitsOf(shown[3])
      && DigitsOf(shown[0]) == c.days && DigitsOf(shown[1]) == c.hours
      && DigitsOf(shown[2]) == c.minutes && DigitsOf(shown[3]) == c.seconds
  {
    var c := Decompose(t);
    assert 0 <= c.days && 0 <= c.hours < 24 && 0 <= c.minutes < 60 && 0 <= c.seconds < 60;
    ShowsClock(c);
  }

  lemma ShowsClock(c: Clock)
    requires 0 <= c.days && 0 <= c.hours < 24 && 0 <= c.minutes < 60 && 0 <= c.seconds < 60
    ensures var shown := Display(c);
      && |shown| == 4
      && |shown[0]| >= 2 && |shown[1]| == 2 && |shown[2]| == 2 && |shown[3]| == 2
      && AllDigitsOf(shown[0]) && AllDigitsOf(shown[1]) && AllDigitsOf(shown[2]) && AllDigitsOf(shown[3])
      && DigitsOf(shown[0]) == c.days && DigitsOf(shown[1]) == c.hours
      && DigitsOf(shown[2]) == c.minutes && DigitsOf(shown[3]) == c.seconds
  {
    FieldShows(c.days);
    FieldShows(c.hours);
    FieldShows(c.minutes);
    FieldShows(c.seconds);
  }

  predicate AllDigitsOf(s: string) {
    forall i :: 0 <= i < |s| ==> IsDigit(s[i])
  }

  function DigitsOf(s: string): int {
    if AllDigitsOf(s) then DigitsValue(s) else -1
  }
}
