/** The persistence timer of TaskManager.updatePersistTimer (script.js): the
    milliseconds since the first completion split into hours, minutes and
    seconds with JavaScript's operators, the 'HHH:MM:SS' text, and the test
    that fires the hourly celebration. The clock reading is a parameter. */
module Timer {
  import opened Domain

  const MS_PER_SECOND: int := 1000
  const MS_PER_MINUTE: int := 60000
  const MS_PER_HOUR: int := 3600000

  /** JavaScript's `a % b` for b > 0: the remainder takes the sign of `a`. */
  function JsRem(a: int, b: int): (r: int)
    requires b > 0
    ensures a >= 0 ==> 0 <= r < b && r == a % b
    ensures a < 0 ==> -b < r <= 0 && -r == (-a) % b
  {
    if a >= 0 then a % b else -((-a) % b)
  }

  /** Math.floor(a / b) for b > 0. */
  function FloorDiv(a: int, b: int): (q: int)
    requires b > 0
    ensures b * q <= a < b * q + b
  {
    a / b
  }

  datatype Elapsed = Elapsed(hours: int, minutes: int, seconds: int)

  /** The three numbers updatePersistTimer shows for `diff` milliseconds. */
  function ElapsedOf(diff: int): (e: Elapsed)
    ensures diff >= 0 ==> e.hours >= 0 && 0 <= e.minutes < 60 && 0 <= e.seconds < 60
    ensures diff >= 0 ==>
              e.hours * 3600000 + e.minutes * 60000 + e.seconds * 1000 <= diff <
              e.hours * 3600000 + e.minutes * 60000 + e.seconds * 1000 + 1000
  {
    var h := FloorDiv(diff, MS_PER_HOUR);
    var m := FloorDiv(JsRem(diff, MS_PER_HOUR), MS_PER_MINUTE);
    var s := FloorDiv(JsRem(diff, MS_PER_MINUTE), MS_PER_SECOND);
    ElapsedParts(diff);
    Elapsed(h, m, s)
  }

  /** For a non-negative count the three numbers are the usual mixed-radix
      digits of the count. */
  lemma ElapsedParts(diff: int)
    ensures diff >= 0 ==>
            var h, r := diff / MS_PER_HOUR, diff % MS_PER_HOUR;
            var m, s := r / MS_PER_MINUTE, (diff % MS_PER_MINUTE) / MS_PER_SECOND;
            h >= 0 && 0 <= m < 60 && 0 <= s < 60 &&
            h * MS_PER_HOUR + m * MS_PER_MINUTE + s * MS_PER_SECOND <= diff < h * MS_PER_HOUR + m * MS_PER_MINUTE + s * MS_PER_SECOND + MS_PER_SECOND
  {
    if diff >= 0 {
      var h, r := diff / MS_PER_HOUR, diff % MS_PER_HOUR;
      var m, r2 := r / MS_PER_MINUTE, r % MS_PER_MINUTE;
      assert diff % MS_PER_MINUTE == r2 by {
        assert diff == h * MS_PER_HOUR + m * MS_PER_MINUTE + r2;
        assert diff == (h * 60 + m) * MS_PER_MINUTE + r2;
      }
    }
  }

  /** A count is a whole number of hours exactly when its negation is. */
  lemma WholeHoursNegate(x: int)
    ensures x % MS_PER_HOUR == 0 <==> (-x) % MS_PER_HOUR == 0
  {
    if x % MS_PER_HOUR == 0 {
      var q := x / MS_PER_HOUR;
      assert -x == (-q) * MS_PER_HOUR;
    }
    if (-x) % MS_PER_HOUR == 0 {
      var q := (-x) / MS_PER_HOUR;
      assert x == (-q) * MS_PER_HOUR;
    }
  }

  /** After the start, minutes and seconds both show 0 in the first second
      of every whole hour. */
  lemma HourlyTriggerAfterStart(diff: int)
    requires diff >= 0
    ensures var e := ElapsedOf(diff);
            (e.minutes == 0 && e.seconds == 0) <==> diff % MS_PER_HOUR < MS_PER_SECOND
  {
    var e := ElapsedOf(diff);
    var r := diff % MS_PER_HOUR;
    assert diff % MS_PER_MINUTE == r % MS_PER_MINUTE by {
      var h := diff / MS_PER_HOUR;
      assert diff == (h * 60) * MS_PER_MINUTE + r;
    }
    assert e.minutes == r / MS_PER_MINUTE;
    assert e.seconds == (r % MS_PER_MINUTE) / MS_PER_SECOND;
    if r < MS_PER_MINUTE {
      assert r % MS_PER_MINUTE == r;
    }
  }

  /** Before the start, minutes and seconds both show 0 only at whole hours;
      in between the minutes show a negative number. */
  lemma HourlyTriggerBeforeStart(diff: int)
    requires diff < 0
    ensures var e := ElapsedOf(diff);
            (e.minutes == 0 && e.seconds == 0) <==> diff % MS_PER_HOUR == 0
  {
    var e := ElapsedOf(diff);
    var q, r0 := (-diff) / MS_PER_HOUR, (-diff) % MS_PER_HOUR;
    WholeHoursNegate(diff);
    assert JsRem(diff, MS_PER_HOUR) == -r0;
    assert e.minutes == FloorDiv(-r0, MS_PER_MINUTE);
    if r0 > 0 {
      assert e.minutes < 0;
    } else {
      assert -diff == (q * 60) * MS_PER_MINUTE;
      assert (-diff) % MS_PER_MINUTE == 0;
      assert JsRem(diff, MS_PER_MINUTE) == 0;
    }
  }

  /** The hourly celebration fires when minutes and seconds both show 0: in
      the first second of every whole hour since the start (the very first
      second included), and, before the start, only at exact whole hours. */
  lemma HourlyTrigger(diff: int)
    ensures var e := ElapsedOf(diff);
            (e.minutes == 0 && e.seconds == 0) <==>
            ((diff >= 0 && diff % MS_PER_HOUR < MS_PER_SECOND) || (diff < 0 && diff % MS_PER_HOUR == 0))
  {
    if diff < 0 {
      HourlyTriggerBeforeStart(diff);
    } else {
      HourlyTriggerAfterStart(diff);
    }
  }

  // ------------------------------------------------------------- the text

  function DigitChar(d: int): (c: char)
    requires 0 <= d < 10
    ensures '0' <= c <= '9'
  {
    ('0' as int + d) as char
  }

  /** Number.prototype.toString for a non-negative integer. */
  function NatText(n: nat): (s: string)
    ensures |s| >= 1
    ensures forall i :: 0 <= i < |s| ==> '0' <= s[i] <= '9'
    ensures n < 10 ==> |s| == 1
    ensures 10 <= n < 100 ==> |s| == 2
  {
    if n < 10 then [DigitChar(n)] else NatText(n / 10) + [DigitChar(n % 10)]
  }

  /** Number.prototype.toString for any integer. */
  function IntText(n: int): string
  {
    if n < 0 then "-" + NatText(-n) else NatText(n)
  }

  /** The value of a string of decimal digits. */
  function DigitsValue(s: string): nat
  {
    if |s| == 0 then 0
    else
      var d := s[|s| - 1] as int - '0' as int;
      DigitsValue(s[..|s| - 1]) * 10 + (if 0 <= d < 10 then d else 0)
  }

  /** Reading the digits of a number gives the number back. */
  lemma {:induction false} NatTextValue(n: nat)
    ensures DigitsValue(NatText(n)) == n
  {
    if n >= 10 {
      NatTextValue(n / 10);
      var s := NatText(n / 10) + [DigitChar(n % 10)];
      assert s[..|s| - 1] == NatText(n / 10);
    }
  }

  /** String.prototype.padStart(len, '0'). */
  function PadStart(s: string, len: nat): (r: string)
    ensures |r| == if |s| >= len then |s| else len
    ensures r[|r| - |s|..] == s
    ensures forall i :: 0 <= i < |r| - |s| ==> r[i] == '0'
  {
    if |s| >= len then s else seq(len - |s|, _ => '0') + s
  }

  /** A leading zero does not change the value of a digit string. */
  lemma {:induction false} LeadingZero(s: string)
    ensures DigitsValue("0" + s) == DigitsValue(s)
  {
    if |s| > 0 {
      var z := "0" + s;
      assert z[..|z| - 1] == "0" + s[..|s| - 1];
      LeadingZero(s[..|s| - 1]);
    }
  }

  lemma {:induction false} PadStartValue(s: string, len: nat)
    ensures DigitsValue(PadStart(s, len)) == DigitsValue(s)
    decreases len - |s|
  {
    if |s| < len {
      assert PadStart(s, len) == PadStart("0" + s, len);
      PadStartValue("0" + s, len);
      LeadingZero(s);
    }
  }

  /** The timer text: hours padded to three places, minutes and seconds to
      two, separated by colons. */
  function ElapsedText(e: Elapsed): string
  {
    Field(e.hours, 3) + ":" + Field(e.minutes, 2) + ":" + Field(e.seconds, 2)
  }

  /** One field of the timer text: `n.toString().padStart(len, '0')`. */
  function Field(n: int, len: nat): string
  {
    PadStart(IntText(n), len)
  }

  /** updatePersistTimer's text: '000:00:00' before the first completion,
      otherwise the time since it. */
  function TimerText(start: Option<int>, now: int): (t: string)
    ensures start.None? ==> t == "000:00:00"
  {
    if start.None? then "000:00:00" else SinceText(start.value, now)
  }

  /** The text for a timer started at `start`, read at `now`. */
  function SinceText(start: int, now: int): string
  {
    ElapsedText(ElapsedOf(now - start))
  }

  /** A non-negative field fills at least its width and reads back as its
      number; below 60 it fills exactly two places. */
  lemma FieldValue(n: nat, len: nat)
    ensures |Field(n, len)| >= len
    ensures DigitsValue(Field(n, len)) == n
    ensures n < 60 && len == 2 ==> |Field(n, len)| == 2
  {
    PadStartValue(NatText(n), len);
    NatTextValue(n);
  }

  /** t is a text 'H:MM:SS' whose three fields read back as e's numbers. */
  predicate ReadsBack(t: string, e: Elapsed)
  {
    |t| >= 9 && t[|t| - 6] == ':' && t[|t| - 3] == ':' &&
    DigitsValue(t[..|t| - 6]) == e.hours &&
    DigitsValue(t[|t| - 5..|t| - 3]) == e.minutes &&
    DigitsValue(t[|t| - 2..]) == e.seconds
  }

  /** Joining three fields with colons keeps each field in its place when
      the last two have two characters each. */
  lemma TextLayout(h: string, m: string, s: string, e: Elapsed)
    requires |h| >= 3 && |m| == 2 && |s| == 2
    requires DigitsValue(h) == e.hours && DigitsValue(m) == e.minutes && DigitsValue(s) == e.seconds
    ensures ReadsBack(h + ":" + m + ":" + s, e)
  {
    var t := h + ":" + m + ":" + s;
    assert t[..|t| - 6] == h;
    assert t[|t| - 5..|t| - 3] == m;
    assert t[|t| - 2..] == s;
  }

  /** The text of non-negative hours and of minutes and seconds below 60
      reads back field by field. */
  lemma ElapsedTextReadsBack(e: Elapsed)
    requires e.hours >= 0 && 0 <= e.minutes < 60 && 0 <= e.seconds < 60
    ensures ReadsBack(ElapsedText(e), e)
  {
    FieldValue(e.hours, 3);
    FieldValue(e.minutes, 2);
    FieldValue(e.seconds, 2);
    TextLayout(Field(e.hours, 3), Field(e.minutes, 2), Field(e.seconds, 2), e);
  }

  /** For a start in the past, the text reads back as the elapsed hours,
      minutes and seconds: minutes and seconds fill exactly two places. */
  lemma TimerTextReadsBack(start: int, now: int)
    requires start <= now
    ensures ReadsBack(TimerText(Some(start), now), ElapsedOf(now - start))
  {
    var e := ElapsedOf(now - start);
    assert TimerText(Some(start), now) == SinceText(start, now);
    assert SinceText(start, now) == ElapsedText(e);
    assert e.hours >= 0 && 0 <= e.minutes < 60 && 0 <= e.seconds < 60;
    ElapsedTextReadsBack(e);
  }
}
