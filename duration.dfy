/**
 * `formatDuration(ms)`: a duration in milliseconds as Uzbek text.  Below one
 * second it is "<ms> millisoniya"; otherwise it is broken into whole hours,
 * minutes and seconds, hours shown only when non-zero, minutes when either
 * they or the hours are non-zero, seconds always.
 */
module Duration {
  import opened Strings
  import Arith

  const MsPerHour := 3600000
  const MsPerMinute := 60000
  const MsPerSecond := 1000

  datatype Parts = Parts(hours: nat, minutes: nat, seconds: nat)

  /** The whole milliseconds the parts account for. */
  function PartsMs(p: Parts): nat {
    p.hours * MsPerHour + p.minutes * MsPerMinute + p.seconds * MsPerSecond
  }

  /** `p` is a breakdown of `ms`: minutes and seconds below 60, and less than one second left over. */
  ghost predicate IsBreakdown(ms: nat, p: Parts) {
    p.minutes < 60 && p.seconds < 60 && PartsMs(p) <= ms < PartsMs(p) + MsPerSecond
  }

  /** The three `Math.floor` divisions of `formatDuration`. */
  function Breakdown(ms: nat): (p: Parts)
    ensures IsBreakdown(ms, p)
  {
    var h, r := ms / MsPerHour, ms % MsPerHour;
    var m, r' := r / MsPerMinute, r % MsPerMinute;
    var s, r'' := r' / MsPerSecond, r' % MsPerSecond;
    assert ms % MsPerMinute == r' by {
      Arith.DivModUnique(ms, MsPerMinute, h * 60 + m, r');
    }
    Parts(h, m, s)
  }

  /** The floors as `formatDuration` writes them: the seconds are taken from `ms % 60000` directly. */
  lemma BreakdownFloors(ms: nat)
    ensures Breakdown(ms) == Parts(ms / MsPerHour, (ms % MsPerHour) / MsPerMinute, (ms % MsPerMinute) / MsPerSecond)
  {
    var h, r := ms / MsPerHour, ms % MsPerHour;
    Arith.DivModUnique(ms, MsPerMinute, h * 60 + r / MsPerMinute, r % MsPerMinute);
  }

  /** A breakdown is unique: the floors in `formatDuration` compute the only one. */
  lemma {:induction false} BreakdownUnique(ms: nat, p: Parts)
    requires IsBreakdown(ms, p)
    ensures p == Breakdown(ms)
  {
    var rest := ms - PartsMs(p);
    var q := Breakdown(ms);
    Arith.DivModUnique(ms, MsPerHour, p.hours, p.minutes * MsPerMinute + p.seconds * MsPerSecond + rest);
    Arith.DivModUnique(ms % MsPerHour, MsPerMinute, p.minutes, p.seconds * MsPerSecond + rest);
    Arith.DivModUnique(ms, MsPerMinute, p.hours * 60 + p.minutes, p.seconds * MsPerSecond + rest);
    Arith.DivModUnique(ms % MsPerMinute, MsPerSecond, p.seconds, rest);
  }

  /** The text of a breakdown: hours only when non-zero, minutes when they or the hours are non-zero, seconds always. */
  function PartsText(p: Parts): string {
    (if p.hours > 0 then NatToString(p.hours) + " soat " else "")
    + (if p.minutes > 0 || p.hours > 0 then NatToString(p.minutes) + " daqiqa " else "")
    + NatToString(p.seconds) + " soniya"
  }

  /** The text `formatDuration(ms)` returns. */
  function DurationText(ms: int): string {
    if ms < MsPerSecond then IntToString(ms) + " millisoniya" else PartsText(Breakdown(ms))
  }

  /** The text of a breakdown has no surrounding white space. */
  lemma PartsTextTrimmed(p: Parts)
    ensures PartsText(p) != [] && Trimmed(PartsText(p))
  {
    var t := PartsText(p);
    assert t[|t| - 1] == 'a';
    if p.hours > 0 {
      assert t[0] == NatToString(p.hours)[0];
    } else if p.minutes > 0 {
      assert t[0] == NatToString(p.minutes)[0];
    } else {
      assert t[0] == NatToString(p.seconds)[0];
    }
  }

  /** The text has no surrounding white space, so the final `trim()` of `formatDuration` changes nothing. */
  lemma DurationTextTrimmed(ms: int)
    ensures DurationText(ms) != [] && Trimmed(DurationText(ms))
  {
    if ms >= MsPerSecond {
      PartsTextTrimmed(Breakdown(ms));
    } else {
      var t := IntToString(ms) + " millisoniya";
      assert t[0] == IntToString(ms)[0];
      assert t[|t| - 1] == 'a';
    }
  }

  /** `formatDuration`: appends the parts to `duration` and trims the result. */
  method FormatDuration(ms: int) returns (r: string)
    ensures r == DurationText(ms)
  {
    if ms < 1000 {
      return IntToString(ms) + " millisoniya";
    }
    var hours := ms / 3600000;
    var minutes := (ms % 3600000) / 60000;
    var seconds := (ms % 60000) / 1000;
    BreakdownFloors(ms);
    ghost var p := Parts(hours, minutes, seconds);
    ghost var hw := if hours > 0 then NatToString(hours) + " soat " else "";
    ghost var mw := if minutes > 0 || hours > 0 then NatToString(minutes) + " daqiqa " else "";
    var duration := "";
    if hours > 0 {
      duration := duration + NatToString(hours) + " soat ";
    }
    assert duration == hw;
    if minutes > 0 || hours > 0 {
      duration := duration + NatToString(minutes) + " daqiqa ";
    }
    assert duration == hw + mw;
    duration := duration + NatToString(seconds) + " soniya";
    assert duration == PartsText(p);
    PartsTextTrimmed(p);
    TrimmedIsFixpoint(duration);
    r := Trim(duration);
  }

  // ---- properties -------------------------------------------------------------------

  /** The text always ends with the seconds, from one second on. */
  lemma DurationEndsWithSeconds(ms: int)
    requires ms >= MsPerSecond
    ensures EndsWith(DurationText(ms), NatToString(Breakdown(ms).seconds) + " soniya")
  {
    var p := Breakdown(ms);
    var lead := (if p.hours > 0 then NatToString(p.hours) + " soat " else "")
      + (if p.minutes > 0 || p.hours > 0 then NatToString(p.minutes) + " daqiqa " else "");
    assert PartsText(p) == lead + (NatToString(p.seconds) + " soniya");
  }

  /** The text of a breakdown starts with the hours exactly when there are some. */
  lemma PartsShowHoursIff(p: Parts)
    ensures p.hours > 0 <==> StartsWith(PartsText(p), NatToString(p.hours) + " soat ")
  {
    var t := PartsText(p);
    if p.hours == 0 {
      assert NatToString(0) == "0";
      if p.minutes > 0 {
        NonZeroLeadingDigit(p.minutes);
        assert t[0] == NatToString(p.minutes)[0];
      } else if p.seconds > 0 {
        NonZeroLeadingDigit(p.seconds);
        assert t[0] == NatToString(p.seconds)[0];
      } else {
        assert t == "0 soniya";
        assert t[4] != (NatToString(0) + " soat ")[4];
      }
    }
  }

  /** The decimal text of a positive number does not start with '0'. */
  lemma NonZeroLeadingDigit(n: nat)
    requires n > 0
    ensures NatToString(n)[0] != '0'
  {
    var s := NatToString(n);
    if |s| == 1 {
      assert DigitsValue(s) == DigitsValue(s[..0]) * 10 + ((s[0] as int) - ('0' as int));
    }
  }

  /** From one second on, the text starts with the hours exactly when there are some. */
  lemma DurationShowsHoursIff(ms: int)
    requires ms >= MsPerSecond
    ensures Breakdown(ms).hours > 0 <==> StartsWith(DurationText(ms), NatToString(Breakdown(ms).hours) + " soat ")
  {
    PartsShowHoursIff(Breakdown(ms));
  }

  /**
   * The text of a breakdown writes the minutes, just before the seconds, exactly when
   * they or the hours are non-zero; without them no 'q' is left, since only "daqiqa"
   * has one.
   */
  lemma PartsShowMinutesIff(p: Parts)
    ensures p.minutes > 0 || p.hours > 0 <==> 'q' in PartsText(p)
    ensures p.minutes > 0 || p.hours > 0 ==>
      EndsWith(PartsText(p), NatToString(p.minutes) + " daqiqa " + NatToString(p.seconds) + " soniya")
  {
    if p.minutes > 0 || p.hours > 0 {
      MinutesShown(p);
    } else {
      SecondsOnly(p);
    }
  }

  lemma MinutesShown(p: Parts)
    requires p.minutes > 0 || p.hours > 0
    ensures 'q' in PartsText(p)
    ensures EndsWith(PartsText(p), NatToString(p.minutes) + " daqiqa " + NatToString(p.seconds) + " soniya")
  {
    var h := if p.hours > 0 then NatToString(p.hours) + " soat " else "";
    var rest := NatToString(p.minutes) + " daqiqa " + NatToString(p.seconds) + " soniya";
    assert PartsText(p) == h + rest;
    WordWithQ(h, NatToString(p.minutes), NatToString(p.seconds) + " soniya");
    EndsWithAppend(h, rest);
  }

  lemma WordWithQ(a: string, n: string, b: string)
    ensures 'q' in a + (n + " daqiqa " + b)
  {
    var t := a + (n + " daqiqa " + b);
    assert t[|a| + |n| + 3] == " daqiqa "[3];
  }

  lemma EndsWithAppend(a: string, x: string)
    ensures EndsWith(a + x, x)
  {
    assert (a + x)[|a|..] == x;
  }

  lemma SecondsOnly(p: Parts)
    requires p.minutes == 0 && p.hours == 0
    ensures 'q' !in PartsText(p)
  {
    var t := PartsText(p);
    var n := NatToString(p.seconds);
    assert t == n + " soniya";
    forall i | 0 <= i < |t|
      ensures t[i] != 'q'
    {
      if i < |n| {
        assert t[i] == n[i] && IsDigit(n[i]);
      } else {
        assert t[i] == " soniya"[i - |n|];
      }
    }
  }

  /** From one second on, the text shows the minutes exactly when they or the hours are non-zero. */
  lemma DurationShowsMinutesIff(ms: int)
    requires ms >= MsPerSecond
    ensures Breakdown(ms).minutes > 0 || Breakdown(ms).hours > 0 <==> 'q' in DurationText(ms)
  {
    PartsShowMinutesIff(Breakdown(ms));
  }

  /** The estimate for 250 recipients, 600 ms, reads as milliseconds. */
  lemma DurationOfSixHundred()
    ensures DurationText(600) == "600 millisoniya"
  {
    SpellSixHundred(DurationText(600));
  }

  lemma SpellSixHundred(t: string)
    requires t == IntToString(600) + " millisoniya"
    ensures t == "600 millisoniya"
  {
    assert NatToString(600) == "600";
  }

  /** An empty recipient list gives the estimate -300 ms, which reads as a negative number of milliseconds. */
  lemma DurationOfMinusThreeHundred()
    ensures DurationText(-300) == "-300 millisoniya"
  {
    SpellMinusThreeHundred(DurationText(-300));
  }

  lemma SpellMinusThreeHundred(t: string)
    requires t == IntToString(-300) + " millisoniya"
    ensures t == "-300 millisoniya"
  {
    assert NatToString(300) == "300";
  }

  lemma DurationOfOneHour()
    ensures DurationText(3600000) == "1 soat 0 daqiqa 0 soniya"
  {
    BreakdownUnique(3600000, Parts(1, 0, 0));
    SpellOneHour(PartsText(Parts(1, 0, 0)));
  }

  lemma SpellOneHour(t: string)
    requires t == PartsText(Parts(1, 0, 0))
    ensures t == "1 soat 0 daqiqa 0 soniya"
  {
    assert NatToString(1) == "1" && NatToString(0) == "0";
  }

  lemma DurationOfTenMinutes()
    ensures DurationText(600000) == "10 daqiqa 0 soniya"
  {
    BreakdownUnique(600000, Parts(0, 10, 0));
    SpellTenMinutes(PartsText(Parts(0, 10, 0)));
  }

  lemma SpellTenMinutes(t: string)
    requires t == PartsText(Parts(0, 10, 0))
    ensures t == "10 daqiqa 0 soniya"
  {
    assert NatToString(10) == "10" && NatToString(0) == "0";
  }
}
