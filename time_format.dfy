/**
 * The sidebar timer card (src/components/sidebar-features/focus-timer.tsx): the `mm:ss` display of
 * the time left, the phrase for the total focus time, and the checks on the two duration inputs.
 * Numbers are integers: the card only ever formats whole seconds.
 */
module TimeFormat {
  import opened Wrappers
  import opened Text
  import opened Sequences
  import opened Numbers
  import FocusTimer

  /**
   * `formatTime(seconds)`: minutes and seconds, each padded to two digits. The minutes are
   * `Math.floor(seconds / 60)`, which is Dafny's `/` for a positive divisor; the seconds are
   * JavaScript's `%`, negative for a negative input.
   */
  function FormatTime(seconds: int): (r: string)
    ensures 0 <= seconds < 6000 ==> |r| == 5 && r[2] == ':'
  {
    var r := PadStart2(IntToString(seconds / 60)) + ":" + PadStart2(IntToString(JsRem(seconds, 60)));
    assert 0 <= seconds < 6000 ==> |r| == 5 && r[2] == ':' by {
      if 0 <= seconds < 6000 {
        NatToStringShort(seconds / 60);
        NatToStringShort(seconds % 60);
      }
    }
    r
  }

  /** For a non-negative input the display is the two padded numerals of minutes and seconds. */
  lemma FormatTimeNat(seconds: nat)
    ensures FormatTime(seconds) == PadStart2(NatToString(seconds / 60)) + ":" + PadStart2(NatToString(seconds % 60))
  {
  }

  /** Two numerals around a colon, the second of length two, split back at the colon into the values they denote. */
  lemma SplitAtColon(mm: string, ss: string, m: nat, s: nat)
    requires AllDigits(mm) && AllDigits(ss) && |mm| >= 2 && |ss| == 2
    requires DigitsValue(mm) == m && DigitsValue(ss) == s
    ensures var r := mm + ":" + ss; var k := |r| - 3;
      && k >= 2 && r[k] == ':'
      && AllDigits(r[..k]) && AllDigits(r[k + 1..])
      && DigitsValue(r[..k]) == m && DigitsValue(r[k + 1..]) == s
  {
    var r := mm + ":" + ss;
    assert r[..|mm|] == mm && r[|mm| + 1..] == ss;
  }

  /** `r` reads as `seconds`: a numeral of minutes, a colon, and two digits of seconds below sixty. */
  predicate Denotes(r: string, seconds: nat) {
    var k := |r| - 3;
    && k >= 2 && r[k] == ':'
    && AllDigits(r[..k]) && AllDigits(r[k + 1..])
    && DigitsValue(r[k + 1..]) < 60
    && DigitsValue(r[..k]) * 60 + DigitsValue(r[k + 1..]) == seconds
  }

  /** Minutes and seconds below sixty, padded and joined by a colon, read back as the total they make up. */
  lemma PartsDenote(seconds: nat, r: string)
    requires r == PadStart2(NatToString(seconds / 60)) + ":" + PadStart2(NatToString(seconds % 60))
    ensures Denotes(r, seconds)
  {
    var m, s := seconds / 60, seconds % 60;
    var mm, ss := PadStart2(NatToString(m)), PadStart2(NatToString(s));
    NatToStringShort(s);
    PadStart2Digits(NatToString(m));
    PadStart2Digits(NatToString(s));
    NatToStringValue(m);
    NatToStringValue(s);
    SplitAtColon(mm, ss, m, s);
  }

  /** The display reads back as the time it shows: minutes, a colon, and two digits of seconds below sixty. */
  lemma FormatTimeDenotes(seconds: nat)
    ensures Denotes(FormatTime(seconds), seconds)
  {
    FormatTimeNat(seconds);
    PartsDenote(seconds, FormatTime(seconds));
  }

  /** `parts.join(' ')`. */
  function Join(parts: seq<string>, sep: string): string
  {
    if parts == [] then "" else if |parts| == 1 then parts[0] else parts[0] + sep + Join(parts[1..], sep)
  }

  function HoursText(h: nat): string { NatToString(h) + "小時" }
  function MinutesText(m: nat): string { NatToString(m) + "分鐘" }
  function SecondsText(s: nat): string { NatToString(s) + "秒" }

  /** The three ways a part can end tell the parts apart. */
  lemma PartsDiffer(x: nat, y: nat)
    ensures HoursText(x) != MinutesText(y) && HoursText(x) != SecondsText(y) && MinutesText(x) != SecondsText(y)
  {
    var h, m, s := HoursText(x), MinutesText(y), SecondsText(y);
    assert h[|h| - 1] == '時' && m[|m| - 1] == '鐘' && s[|s| - 1] == '秒';
    var m2 := MinutesText(x);
    assert m2[|m2| - 1] == '鐘';
  }

  /**
   * The parts of a positive total `t` (hours `h`, minutes `m`, seconds `s` of it): hours when
   * there are any; minutes when there are any or when hours are shown; seconds when there are
   * any or when they are the only unit.
   */
  function TotalTimeParts(h: nat, m: nat, s: nat): (parts: seq<string>)
    ensures HoursText(h) in parts <==> h > 0
    ensures MinutesText(m) in parts <==> m > 0 || h > 0
    ensures SecondsText(s) in parts <==> s > 0 || (h == 0 && m == 0)
    ensures IsSubsequence(parts, [HoursText(h), MinutesText(m), SecondsText(s)])
  {
    PartsDiffer(h, m);
    PartsDiffer(h, s);
    PartsDiffer(m, s);
    var all := [HoursText(h), MinutesText(m), SecondsText(s)];
    var hp := if h > 0 then [HoursText(h)] else [];
    var mp := if m > 0 || h > 0 then [MinutesText(m)] else [];
    var sp := if s > 0 || (h == 0 && m == 0) then [SecondsText(s)] else [];
    assert IsSubsequence(sp, all[2..]) by {
      assert all[3..] == [];
      assert sp == [] || IsSubsequence(sp[1..], all[3..]);
    }
    assert IsSubsequence(mp + sp, all[1..]) by {
      assert all[1..][1..] == all[2..];
      assert mp != [] ==> (mp + sp)[1..] == sp;
      assert mp == [] ==> mp + sp == sp;
    }
    assert IsSubsequence(hp + mp + sp, all) by {
      assert all[1..] == [MinutesText(m), SecondsText(s)];
      assert hp != [] ==> (hp + mp + sp)[1..] == mp + sp;
      assert hp == [] ==> hp + mp + sp == mp + sp;
    }
    hp + mp + sp
  }

  /** `formatTotalTime(totalSeconds)`: a negative total counts as zero, zero is "0秒", otherwise the parts joined by spaces. */
  function FormatTotalTime(totalSeconds: int): (r: string)
    ensures totalSeconds <= 0 ==> r == "0秒"
    ensures totalSeconds > 0 ==> var t := totalSeconds;
      r == Join(TotalTimeParts(t / 3600, (t % 3600) / 60, t % 60), " ")
  {
    var t := if totalSeconds < 0 then 0 else totalSeconds;
    var h, m, s := t / 3600, (t % 3600) / 60, t % 60;
    if h == 0 && m == 0 && s == 0 then "0秒"
    else
      var joined := Join(TotalTimeParts(h, m, s), " ");
      if joined != "" then joined else "0秒"
  }

  /** The parts decompose the total: hours, then minutes and seconds below sixty. */
  lemma TotalTimeDecomposes(t: nat)
    ensures var h, m, s := t / 3600, (t % 3600) / 60, t % 60;
      h * 3600 + m * 60 + s == t && m < 60 && s < 60
  {
  }

  /** For a positive total the seconds are shown exactly when there are some: a total below a minute has seconds. */
  lemma SecondsShownWhenPositive(t: nat)
    requires t > 0
    ensures var h, m, s := t / 3600, (t % 3600) / 60, t % 60;
      SecondsText(s) in TotalTimeParts(h, m, s) <==> s > 0
  {
    TotalTimeDecomposes(t);
  }

  /** One hour shows its hours and its zero minutes. */
  lemma TotalTimeOneHour()
    ensures FormatTotalTime(3600) == "1小時 0分鐘"
  {
    assert NatToString(1) == "1" && NatToString(0) == "0";
    assert 3600 / 3600 == 1 && (3600 % 3600) / 60 == 0 && 3600 % 60 == 0;
    var parts := TotalTimeParts(1, 0, 0);
    assert FormatTotalTime(3600) == Join(parts, " ");
    assert parts == [HoursText(1), MinutesText(0)];
    assert parts[1..] == [MinutesText(0)];
    assert Join(parts, " ") == HoursText(1) + " " + MinutesText(0);
  }

  /** All three parts, in order. */
  lemma TotalTimeAllParts()
    ensures FormatTotalTime(3661) == "1小時 1分鐘 1秒"
  {
    assert NatToString(1) == "1";
    assert 3661 / 3600 == 1 && (3661 % 3600) / 60 == 1 && 3661 % 60 == 1;
    var parts := TotalTimeParts(1, 1, 1);
    assert FormatTotalTime(3661) == Join(parts, " ");
    assert parts == [HoursText(1), MinutesText(1), SecondsText(1)];
    assert parts[1..] == [MinutesText(1), SecondsText(1)];
    assert Join(parts[1..], " ") == MinutesText(1) + " " + SecondsText(1);
    assert Join(parts, " ") == HoursText(1) + " " + (MinutesText(1) + " " + SecondsText(1));
  }

  /** Under a minute only the seconds are shown; a negative total shows as zero. */
  lemma TotalTimeSecondsOnly()
    ensures FormatTotalTime(59) == "59秒"
    ensures FormatTotalTime(-5) == "0秒"
  {
    assert NatToString(59) == "59";
    assert TotalTimeParts(0, 0, 59) == [SecondsText(59)];
  }

  /** The duration inputs call the setter only with a value that reads as a positive integer. */
  function DurationInput(value: string): (minutes: Option<int>)
    ensures minutes.Some? <==> ParseInt(value).Some? && ParseInt(value).value > 0
    ensures minutes.Some? ==> minutes == ParseInt(value)
  {
    var v := ParseInt(value);
    if v.Some? && v.value > 0 then v else None
  }

  /** Every positive number typed in is accepted as it was written. */
  lemma DurationInputAccepts(minutes: int)
    requires minutes > 0
    ensures DurationInput(IntToString(minutes)) == Some(minutes)
  {
    IntToStringRoundTrip(minutes);
  }

  /** Through the inputs, the timer only ever receives durations that keep it sane. */
  lemma DurationInputKeepsTimerSane(s: FocusTimer.Timer, value: string)
    requires FocusTimer.Sane(s) && DurationInput(value).Some?
    ensures var m := DurationInput(value).value;
      FocusTimer.Sane(FocusTimer.WithFocusMinutes(s, m)) && FocusTimer.Sane(FocusTimer.WithBreakMinutes(s, m))
  {
    FocusTimer.SaneInvariant(s, DurationInput(value).value, true);
  }
}
