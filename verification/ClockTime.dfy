/** Wall-clock times: seconds of the day and their stored `HH:MM:SS` text. */
module ClockTime {
  import opened Text

  /** Zero-padded hours only stay two digits wide below a hundred hours. */
  const CLOCK_LIMIT := 360_000

  function ToClock(seconds: nat): (t: string)
    requires seconds < CLOCK_LIMIT
    ensures |t| == 8
  {
    assert Power10(2) == 100;
    Fields(Pad(seconds / 3600, 2), Pad(seconds % 3600 / 60, 2), Pad(seconds % 60, 2), ':')
  }

  /** Fixed-width clock text with its minutes and seconds in range. */
  predicate IsClock(t: string) {
    && |t| == 8 && t[2] == ':' && t[5] == ':'
    && AllDigits(t[..2]) && AllDigits(t[3..5]) && AllDigits(t[6..])
    && Unpad(t[3..5]) < 60 && Unpad(t[6..]) < 60
  }

  function ToSeconds(t: string): (seconds: nat)
    requires IsClock(t)
  {
    Unpad(t[..2]) * 3600 + Unpad(t[3..5]) * 60 + Unpad(t[6..])
  }

  /** `Math.round` of a number of half-seconds: halves round up. */
  function RoundHalfSeconds(halves: nat): (seconds: nat)
    ensures 2 * seconds - 1 <= halves <= 2 * seconds
  {
    (halves + 1) / 2
  }

  lemma ParsePrint(seconds: nat)
    requires seconds < CLOCK_LIMIT
    ensures IsClock(ToClock(seconds))
    ensures ToSeconds(ToClock(seconds)) == seconds
  {
    hide Pad, Unpad;
    assert Power10(2) == 100;
    var (h, m, s) := (seconds / 3600, seconds % 3600 / 60, seconds % 60);
    var t := ToClock(seconds);
    UnpadPad(h, 2);
    UnpadPad(m, 2);
    UnpadPad(s, 2);
    assert t[..2] == Pad(h, 2) && t[3..5] == Pad(m, 2) && t[6..] == Pad(s, 2);
    assert seconds == 3600 * h + 60 * m + s;
  }

  lemma FieldsOfTime(h: nat, m: nat, s: nat)
    requires m < 60 && s < 60
    ensures var t := 3600 * h + 60 * m + s; t / 3600 == h && t % 3600 / 60 == m && t % 60 == s
  {
  }

  lemma PrintFields(h: nat, m: nat, s: nat)
    requires h < 100 && m < 60 && s < 60
    ensures Power10(2) == 100
    ensures ToClock(3600 * h + 60 * m + s) == Fields(Pad(h, 2), Pad(m, 2), Pad(s, 2), ':')
  {
    assert Power10(2) == 100;
    FieldsOfTime(h, m, s);
  }

  lemma PadUnpadPair(s: string)
    requires |s| == 2 && AllDigits(s)
    ensures Unpad(s) < 100 == Power10(2)
    ensures Pad(Unpad(s), 2) == s
  {
  }

  lemma SplitIntoFields(t: string)
    requires |t| == 8 && t[2] == ':' && t[5] == ':'
    ensures t == Fields(t[..2], t[3..5], t[6..], ':')
  {
  }

  lemma PrintParse(t: string)
    requires IsClock(t)
    ensures ToSeconds(t) < CLOCK_LIMIT
    ensures ToClock(ToSeconds(t)) == t
  {
    hide Pad, Unpad, Fields, ToClock;
    var (h, m, s) := (t[..2], t[3..5], t[6..]);
    PadUnpadPair(h);
    PadUnpadPair(m);
    PadUnpadPair(s);
    SplitIntoFields(t);
    PrintFields(Unpad(h), Unpad(m), Unpad(s));
  }

  lemma TimeOfFields(t: nat)
    ensures t == 3600 * (t / 3600) + 60 * (t % 3600 / 60) + t % 60
    ensures t % 3600 / 60 < 60
  {
    assert t % 3600 % 60 == t % 60;
  }

  lemma LargerFieldsFirst(h: nat, m: nat, s: nat, i: nat, n: nat, r: nat)
    requires m < 60 && s < 60 && n < 60 && r < 60
    ensures 3600 * h + 60 * m + s < 3600 * i + 60 * n + r
            <==> h < i || (h == i && (m < n || (m == n && s < r)))
    ensures 3600 * h + 60 * m + s == 3600 * i + 60 * n + r <==> h == i && m == n && s == r
  {
  }

  /** Hours, minutes and seconds compare field by field as the seconds of the day do. */
  lemma FieldOrder(a: nat, b: nat)
    ensures a < b
            <==> a / 3600 < b / 3600
                 || (a / 3600 == b / 3600
                     && (a % 3600 / 60 < b % 3600 / 60 || (a % 3600 / 60 == b % 3600 / 60 && a % 60 < b % 60)))
    ensures a == b <==> a / 3600 == b / 3600 && a % 3600 / 60 == b % 3600 / 60 && a % 60 == b % 60
  {
    TimeOfFields(a);
    TimeOfFields(b);
    LargerFieldsFirst(a / 3600, a % 3600 / 60, a % 60, b / 3600, b % 3600 / 60, b % 60);
  }

  /** Comparing two stored times as text compares the times. */
  lemma ClockOrder(a: nat, b: nat)
    requires a < CLOCK_LIMIT && b < CLOCK_LIMIT
    ensures StringBefore(ToClock(a), ToClock(b)) <==> a < b
    ensures ToClock(a) == ToClock(b) <==> a == b
  {
    assert Power10(2) == 100;
    var (h, m, s) := (a / 3600, a % 3600 / 60, a % 60);
    var (i, n, r) := (b / 3600, b % 3600 / 60, b % 60);
    FieldOrder(a, b);
    PadOrder(h, i, 2);
    PadOrder(m, n, 2);
    PadOrder(s, r, 2);
    FieldsOrder(Pad(h, 2), Pad(m, 2), Pad(s, 2), Pad(i, 2), Pad(n, 2), Pad(r, 2), ':');
  }
}
