/** The text and the main button of the countdown display, for a non-negative
    number of seconds. */
module TimerDisplay {
  import opened Options
  import opened TimerTypes
  import opened TimerEngine

  predicate IsDigit(c: char)
  {
    '0' <= c <= '9'
  }

  predicate AllDigits(s: string)
  {
    forall i :: 0 <= i < |s| ==> IsDigit(s[i])
  }

  function Digit(d: nat): (c: char)
    requires d < 10
    ensures IsDigit(c)
  {
    (48 + d) as char
  }

  function DigitValue(c: char): (d: nat)
    requires IsDigit(c)
    ensures d < 10
  {
    c as int - 48
  }

  /** The number a string of decimal digits denotes; leading zeros are allowed. */
  function DigitsValue(s: string): (value: nat)
    requires AllDigits(s)
    decreases |s|
  {
    if s == [] then 0 else DigitsValue(s[..|s| - 1]) * 10 + DigitValue(s[|s| - 1])
  }

  /** `String(n)` for a non-negative integer: its decimal digits, with no leading zero. */
  function DecimalString(n: nat): (r: string)
    ensures |r| >= 1 && AllDigits(r)
    ensures |r| > 1 ==> r[0] != '0'
    ensures n < 10 <==> |r| == 1
    ensures n < 100 <==> |r| <= 2
    decreases n
  {
    if n < 10 then [Digit(n)] else DecimalString(n / 10) + [Digit(n % 10)]
  }

  lemma {:induction false} DecimalRoundTrip(n: nat)
    ensures DigitsValue(DecimalString(n)) == n
    decreases n
  {
    if n >= 10 {
      var s := DecimalString(n);
      assert s[..|s| - 1] == DecimalString(n / 10);
      DecimalRoundTrip(n / 10);
    }
  }

  function Repeat(c: char, k: nat): (r: string)
    ensures |r| == k && forall i :: 0 <= i < k ==> r[i] == c
  {
    seq(k, _ => c)
  }

  /** `s.padStart(width, fill)` for a one-character fill: `fill` in front until the text is
      `width` long; a text already that long is returned as it is. */
  function PadStart(s: string, width: nat, fill: char): (r: string)
    ensures |r| == if |s| >= width then |s| else width
    ensures r[|r| - |s|..] == s
    ensures forall i :: 0 <= i < |r| - |s| ==> r[i] == fill
  {
    if |s| >= width then s else Repeat(fill, width - |s|) + s
  }

  /** Zero padding does not change the number. */
  lemma {:induction false} LeadingZeros(k: nat, s: string)
    requires AllDigits(s)
    ensures AllDigits(Repeat('0', k) + s)
    ensures DigitsValue(Repeat('0', k) + s) == DigitsValue(s)
    decreases |s|
  {
    var z := Repeat('0', k);
    if s == [] {
      assert z + s == z;
      ZerosValue(k);
    } else {
      assert (z + s)[..|z + s| - 1] == z + s[..|s| - 1];
      LeadingZeros(k, s[..|s| - 1]);
    }
  }

  lemma {:induction false} ZerosValue(k: nat)
    ensures DigitsValue(Repeat('0', k)) == 0
    decreases k
  {
    if k > 0 {
      assert Repeat('0', k)[..k - 1] == Repeat('0', k - 1);
      ZerosValue(k - 1);
    }
  }

  /** `Math.floor(t / 60)` and `t % 60`: whole minutes and the seconds left over. */
  function SplitTime(t: nat): (r: (nat, nat))
    ensures r.0 * 60 + r.1 == t && r.1 < 60
  {
    (t / 60, t % 60)
  }

  lemma MinutesBelowHundred(t: nat)
    ensures t / 60 < 100 <==> t < 6000
  {
  }

  /** The two-digit-at-least text of one clock field. */
  function Field(n: nat): (r: string)
    ensures AllDigits(r) && |r| >= 2
    ensures DigitsValue(r) == n
    ensures n < 100 <==> |r| == 2
    ensures n >= 100 ==> r == DecimalString(n)
  {
    var d := DecimalString(n);
    DecimalRoundTrip(n);
    LeadingZeros(if |d| >= 2 then 0 else 2 - |d|, d);
    assert |d| < 2 ==> PadStart(d, 2, '0') == Repeat('0', 2 - |d|) + d;
    assert |d| >= 2 ==> PadStart(d, 2, '0') == Repeat('0', 0) + d;
    PadStart(d, 2, '0')
  }

  /** The countdown text: padded minutes, a colon, padded seconds. */
  function FormatTime(t: nat): (r: string)
    ensures |r| >= 5 && r[|r| - 3] == ':'
    ensures t < 6000 <==> |r| == 5
  {
    var split := SplitTime(t);
    MinutesBelowHundred(t);
    Field(split.0) + ":" + Field(split.1)
  }

  /** Reads a countdown text back into minutes and seconds: digits, a colon, two digits. */
  function ReadClock(text: string): (fields: Option<(nat, nat)>)
    ensures fields.Some? ==> |text| >= 4 && text[|text| - 3] == ':'
  {
    var n := |text|;
    if n >= 4 then ReadFields(text[..n - 3], text[n - 3], text[n - 2..]) else None
  }

  /** The minutes text, the separator and the seconds text, read as numbers. */
  function ReadFields(mm: string, colon: char, ss: string): (fields: Option<(nat, nat)>)
    ensures fields.Some? ==> colon == ':'
  {
    if colon == ':' && AllDigits(mm) && AllDigits(ss)
    then Some((DigitsValue(mm), DigitsValue(ss)))
    else None
  }

  lemma ReadJoined(mm: string, ss: string)
    requires AllDigits(mm) && AllDigits(ss) && |mm| >= 2 && |ss| == 2
    ensures ReadClock(mm + ":" + ss) == Some((DigitsValue(mm), DigitsValue(ss)))
  {
    var r := mm + ":" + ss;
    var n := |r|;
    assert n == |mm| + 3;
    assert r[..n - 3] == mm;
    assert r[n - 3] == ':';
    assert r[n - 2..] == ss;
  }

  /** The displayed text gives back the minutes and seconds it was made from (which
      determine the number of seconds, by `SplitTime`). */
  lemma ClockRoundTrip(t: nat)
    ensures ReadClock(FormatTime(t)) == Some(SplitTime(t))
  {
    var split := SplitTime(t);
    var mm, ss := Field(split.0), Field(split.1);
    assert FormatTime(t) == mm + ":" + ss;
    ReadJoined(mm, ss);
  }

  /** Different numbers of seconds are displayed differently. */
  lemma FormatInjective(a: nat, b: nat)
    requires FormatTime(a) == FormatTime(b)
    ensures a == b
  {
    ClockRoundTrip(a);
    ClockRoundTrip(b);
  }

  datatype Icon = PlayIcon | PauseIcon
  datatype Press = OnStart | OnPause

  /** What the main button shows and which handler its press calls. */
  datatype MainButton = MainButton(icon: Icon, onPress: Press)

  /** The main button: pause icon and `onPause` exactly while running, otherwise play
      and `onStart`. */
  function MainButtonFor(isRunning: bool): (b: MainButton)
    ensures b.icon == PauseIcon <==> isRunning
    ensures b.onPress == OnPause <==> isRunning
  {
    if isRunning then MainButton(PauseIcon, OnPause) else MainButton(PlayIcon, OnStart)
  }

  /** The store transition a press reaches on the timer screen while a preset is active,
      where `onStart` is wired to `startTimer` and `onPause` to `pauseTimer`. (With no
      active preset the screen passes handlers that do nothing.) */
  function Perform(press: Press, s: TimerState): (r: TimerState)
    requires s.activePreset.Some?
    ensures r.activePreset == s.activePreset
  {
    match press
    case OnStart => Start(s)
    case OnPause => Pause(s)
  }

  /** With a preset active, pressing the main button toggles running, and changes
      nothing else. */
  lemma MainButtonToggles(s: TimerState)
    requires s.activePreset.Some?
    ensures Perform(MainButtonFor(s.isRunning).onPress, s) == s.(isRunning := !s.isRunning)
  {
  }
}
