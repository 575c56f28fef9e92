/**
 * The registration countdown: a deadline a number of days after the banner
 * appears, the time left split into days, hours, minutes and seconds, and
 * each part printed with at least two digits.
 */
module Countdown {
  import opened Wrappers
  import Decimal

  const MsPerSecond: int := 1000
  const MsPerMinute: int := 60 * 1000
  const MsPerHour: int := 60 * 60 * 1000
  const MsPerDay: int := 24 * 60 * 60 * 1000
  /**
   * The banner's `days` when none is given. The home page gives none (its
   * `targetDateISO` is not a property the banner reads), so this is the
   * countdown it shows.
   */
  const DefaultDays: int := 7

  datatype TimeLeft = TimeLeft(days: int, hours: int, minutes: int, seconds: int)

  /**
   * The deadline, `days` whole days after the moment the banner is shown:
   * read at that same moment, the time left is exactly those days.
   */
  function Target(shownAt: int, days: int): (t: int)
    ensures days >= 0 ==> t >= shownAt
    ensures days >= 0 ==> CalcTimeLeft(t, shownAt) == TimeLeft(days, 0, 0, 0)
  {
    var diff := days * MsPerDay;
    assert days >= 0 ==> Max(0, shownAt + diff - shownAt) == diff;
    assert diff / MsPerHour == days * 24;
    assert diff / MsPerMinute == days * 1440;
    assert diff / MsPerSecond == days * 86400;
    shownAt + diff
  }

  /**
   * `calcTimeLeft`: the milliseconds left, clamped at zero, broken into
   * whole days and the hours, minutes and seconds of the day that remain.
   */
  function CalcTimeLeft(target: int, now: int): (t: TimeLeft)
    ensures t.days >= 0
    ensures 0 <= t.hours < 24 && 0 <= t.minutes < 60 && 0 <= t.seconds < 60
  {
    var diff := Max(0, target - now);
    TimeLeft(diff / MsPerDay, (diff / MsPerHour) % 24, (diff / MsPerMinute) % 60, (diff / MsPerSecond) % 60)
  }

  function TotalSeconds(t: TimeLeft): int {
    t.days * 86400 + t.hours * 3600 + t.minutes * 60 + t.seconds
  }

  /**
   * The four parts together are the whole seconds left: nothing is lost or
   * counted twice when the milliseconds are split.
   */
  lemma TimeLeftRecomposes(target: int, now: int)
    ensures TotalSeconds(CalcTimeLeft(target, now)) == Max(0, target - now) / 1000
  {
    var diff: nat := Max(0, target - now);
    var s, ms := diff / 1000, diff % 1000;
    var m, sec := s / 60, s % 60;
    var h, min := m / 60, m % 60;
    var d, hr := h / 24, h % 24;
    assert diff == 1000 * s + ms;
    assert s == 60 * m + sec;
    assert m == 60 * h + min;
    assert h == 24 * d + hr;
    assert diff == 60000 * m + (1000 * sec + ms);
    assert diff / 60000 == m;
    assert diff == 3600000 * h + (60000 * min + 1000 * sec + ms);
    assert diff / 3600000 == h;
    assert diff == 86400000 * d + (3600000 * hr + 60000 * min + 1000 * sec + ms);
    assert diff / 86400000 == d;
  }

  /** Nothing is shown as left exactly when less than a second remains. */
  lemma ZeroIffUnderASecond(target: int, now: int)
    ensures CalcTimeLeft(target, now) == TimeLeft(0, 0, 0, 0) <==> target - now < 1000
  {
    TimeLeftRecomposes(target, now);
  }

  /**
   * The deadline and the first time left come from two clock reads. When
   * the second one is up to a second later than the first, the banner
   * starts one second short of the whole days.
   */
  lemma FirstReadLaterShowsLess(shownAt: int, days: int, delay: int)
    requires days >= 1 && 0 < delay <= 1000
    ensures CalcTimeLeft(Target(shownAt, days), shownAt + delay) == TimeLeft(days - 1, 23, 59, 59)
  {
    var diff := days * MsPerDay - delay;
    assert Max(0, Target(shownAt, days) - (shownAt + delay)) == diff;
    var d := days - 1;
    assert diff == MsPerDay * d + (MsPerDay - delay);
    assert diff / MsPerDay == d;
    assert diff == MsPerHour * (d * 24 + 23) + (MsPerHour - delay);
    assert diff / MsPerHour == d * 24 + 23;
    assert diff == MsPerMinute * (d * 1440 + 1439) + (MsPerMinute - delay);
    assert diff / MsPerMinute == d * 1440 + 1439;
    assert diff == MsPerSecond * (d * 86400 + 86399) + (MsPerSecond - delay);
    assert diff / MsPerSecond == d * 86400 + 86399;
  }

  /** The home page's banner counts down seven days from the moment it appears. */
  lemma HomeBannerShowsSevenDays(mountedAt: int)
    ensures CalcTimeLeft(Target(mountedAt, DefaultDays), mountedAt) == TimeLeft(7, 0, 0, 0)
    ensures CalcTimeLeft(Target(mountedAt, DefaultDays), mountedAt + 1) == TimeLeft(6, 23, 59, 59)
  {
    FirstReadLaterShowsLess(mountedAt, DefaultDays, 1);
  }

  /** Each one-second tick takes exactly one second off the time left, until it runs out. */
  lemma TickTakesOneSecond(target: int, now: int)
    requires target - now >= 1000
    ensures TotalSeconds(CalcTimeLeft(target, now + 1000)) == TotalSeconds(CalcTimeLeft(target, now)) - 1
  {
    TimeLeftRecomposes(target, now);
    TimeLeftRecomposes(target, now + 1000);
  }

  /** `TimeBlockInline`'s number: the value clamped at zero, padded to two digits. */
  function TimeBlockText(value: int): (r: string)
    ensures |r| >= 2 && Decimal.AllDigits(r)
  {
    Decimal.PadStart(Decimal.NatToString(Max(0, value)), 2, '0')
  }

  /** The padded digits still read back as the clamped value; below one
      hundred they are exactly two, from ten on they are the plain decimal
      digits with no leading zero, and below ten one '0' precedes the digit. */
  lemma TimeBlockValue(value: int)
    ensures Decimal.Value(TimeBlockText(value)) == Max(0, value)
    ensures value < 100 ==> |TimeBlockText(value)| == 2
    ensures value >= 10 ==> TimeBlockText(value) == Decimal.NatToString(value) && TimeBlockText(value)[0] != '0'
    ensures value < 10 ==> TimeBlockText(value)[0] == '0'
  {
    var n := Max(0, value);
    var s := Decimal.NatToString(n);
    Decimal.ValueOfNatToString(n);
    if |s| < 2 {
      Decimal.LeadingZerosValue(2 - |s|, s);
    }
    if n >= 10 && n < 100 {
      assert s == Decimal.NatToString(n / 10) + [Decimal.DigitChar(n % 10)];
      assert |Decimal.NatToString(n / 10)| == 1;
    }
  }

  lemma TimeBlockExamples()
    ensures TimeBlockText(5) == "05" && TimeBlockText(-3) == "00" && TimeBlockText(123) == "123"
  {
    assert Decimal.NatToString(5) == "5";
    assert Decimal.NatToString(0) == "0";
    assert Decimal.NatToString(123) == "123" by {
      assert Decimal.NatToString(12) == "12";
    }
  }
}
