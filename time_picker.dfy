/** The hour and minute pickers of the admin match form: `parseTime`, the two
    change handlers and the option lists. A stored time is either 24-hour
    `H:MM`/`HH:MM` or 12-hour `H:MM AM`/`H:MM PM`, and the pickers always
    write `HH:MM` back. */
module TimePicker {
  import opened Common

  /** `parseInt` on a string of decimal digits. */
  function DigitsValue(s: string): nat
    requires AllDigits(s)
  {
    if s == [] then 0 else DigitsValue(s[..|s| - 1]) * 10 + (s[|s| - 1] as int - '0' as int)
  }

  /** `parseInt` reads back what `String(n)` writes. */
  lemma {:induction false} DigitsValueOfNatToString(n: nat)
    ensures DigitsValue(NatToString(n)) == n
    decreases n
  {
    if n >= 10 {
      var s := NatToString(n);
      assert s[..|s| - 1] == NatToString(n / 10);
      DigitsValueOfNatToString(n / 10);
    }
  }

  /** A string made only of white space, as `\s*` matches. */
  predicate AllSpace(s: string) {
    forall i :: 0 <= i < |s| ==> IsSpace(s[i])
  }

  /** `s.match(/^(\d{1,2}):(\d{2})$/)`: the hour and minute groups. */
  function Match24(s: string): (r: Option<(string, string)>)
    ensures r.Some? ==> var (h, m) := r.value;
              1 <= |h| <= 2 && AllDigits(h) && |m| == 2 && AllDigits(m) && s == h + ":" + m
  {
    match IndexOf(s, ":")
    case None => None
    case Some(i) =>
      var h := s[..i];
      var m := s[i + 1..];
      assert s == h + ":" + m;
      if 1 <= |h| <= 2 && AllDigits(h) && |m| == 2 && AllDigits(m) then Some((h, m)) else None
  }

  /** `s.match(/^(\d{1,2}):(\d{2})\s*(AM|PM)$/i)`: the hour and minute groups,
      and whether the suffix is PM. */
  function Match12(s: string): (r: Option<(string, string, bool)>)
    ensures r.Some? ==> var (h, m, pm) := r.value;
              && 1 <= |h| <= 2 && AllDigits(h) && |m| == 2 && AllDigits(m)
              && |s| >= |h| + 5 && s[..|h|] == h && s[|h|] == ':' && s[|h| + 1..|h| + 3] == m
              && AllSpace(s[|h| + 3..|s| - 2])
              && ToLower(s[|s| - 2..]) == (if pm then "pm" else "am")
  {
    match IndexOf(s, ":")
    case None => None
    case Some(i) =>
      var h := s[..i];
      var rest := s[i + 1..];
      if 1 <= |h| <= 2 && AllDigits(h) && |rest| >= 4 && AllDigits(rest[..2])
         && AllSpace(rest[2..|rest| - 2])
         && (ToLower(rest[|rest| - 2..]) == "am" || ToLower(rest[|rest| - 2..]) == "pm")
      then
        assert rest[2..|rest| - 2] == s[|h| + 3..|s| - 2];
        assert rest[|rest| - 2..] == s[|s| - 2..];
        Some((h, rest[..2], ToLower(rest[|rest| - 2..]) == "pm"))
      else None
  }

  /** The 12-hour to 24-hour rule: PM adds twelve except at 12, and 12 AM is 0. */
  function To24(hour: nat, pm: bool): (r: nat)
    ensures r % 12 == hour % 12
    ensures hour <= 12 ==> (pm <==> 12 <= r < 24)
    ensures hour > 12 ==> r == (if pm then hour + 12 else hour)
  {
    if pm && hour != 12 then hour + 12 else if !pm && hour == 12 then 0 else hour
  }

  /** `parseTime`: the hour and minute the pickers show for a stored value. */
  function ParseTime(s: string): (r: (string, string))
    ensures |r.0| >= 2 && AllDigits(r.0)
    ensures |r.1| == 2 && AllDigits(r.1)
  {
    if s == [] then ("09", "00")
    else match Match24(s)
      case Some((h, m)) => (PadStart2(h), m)
      case None =>
        match Match12(s)
        case Some((h, m, pm)) => (PadStart2(NatToString(To24(DigitsValue(h), pm))), m)
        case None => ("09", "00")
  }

  /** The two-digit form of a number below 100. */
  function TwoDigits(n: nat): (r: string)
    requires n < 100
    ensures |r| == 2 && AllDigits(r)
    ensures DigitsValue(r) == n
  {
    DigitsValueOfNatToString(n);
    var s := NatToString(n);
    if |s| == 1 then
      assert DigitsValue(['0'] + s) == DigitsValue(s) by {
        assert (['0'] + s)[..1] == ['0'];
      }
      PadStart2(s)
    else PadStart2(s)
  }

  /** The hour options `00` to `23`, a reference list whose entries
      `PickedTimeRoundTrip` proves are read back by `parseTime`. */
  function Hours(): (hs: seq<string>)
    ensures |hs| == 24
    ensures forall i :: 0 <= i < 24 ==> hs[i] == TwoDigits(i)
  {
    seq(24, i requires 0 <= i < 24 => TwoDigits(i))
  }

  /** The minute options. */
  function Minutes(): (ms: seq<string>)
    ensures |ms| == 4 && forall i :: 0 <= i < 4 ==> |ms[i]| == 2 && AllDigits(ms[i]) && DigitsValue(ms[i]) == 15 * i
  {
    var ms := ["00", "15", "30", "45"];
    assert DigitsValue(ms[1]) == 15 by { assert ms[1][..1] == "1"; }
    assert DigitsValue(ms[2]) == 30 by { assert ms[2][..1] == "3"; }
    assert DigitsValue(ms[3]) == 45 by { assert ms[3][..1] == "4"; }
    ms
  }

  /** `handleHourChange`: the new hour with the minute currently shown. */
  function HourChange(newHour: string, value: string): (r: string)
    ensures forall i :: 0 <= i < 24 && newHour == Hours()[i] ==> ParseTime(r) == (newHour, ParseTime(value).1)
  {
    assert forall i :: 0 <= i < 24 && newHour == Hours()[i] ==> ParseTime(newHour + ":" + ParseTime(value).1) == (newHour, ParseTime(value).1) by {
      forall i | 0 <= i < 24 && newHour == Hours()[i] ensures ParseTime(newHour + ":" + ParseTime(value).1) == (newHour, ParseTime(value).1) {
        PickedTimeRoundTrip(i, ParseTime(value).1);
      }
    }
    newHour + ":" + ParseTime(value).1
  }

  /** `handleMinuteChange`: the hour currently shown with the new minute. */
  function MinuteChange(newMinute: string, value: string): (r: string)
    ensures |newMinute| == 2 && AllDigits(newMinute) && |ParseTime(value).0| == 2 ==>
              ParseTime(r) == (ParseTime(value).0, newMinute)
  {
    assert |newMinute| == 2 && AllDigits(newMinute) && |ParseTime(value).0| == 2 ==>
             ParseTime(ParseTime(value).0 + ":" + newMinute) == (ParseTime(value).0, newMinute) by {
      if |newMinute| == 2 && AllDigits(newMinute) && |ParseTime(value).0| == 2 {
        Match24Complete(ParseTime(value).0, newMinute);
      }
    }
    ParseTime(value).0 + ":" + newMinute
  }

  /** The first colon of `h + ":" + rest` is the one after a digit string `h`. */
  lemma ColonAfterDigits(s: string, h: string)
    requires AllDigits(h) && |h| < |s| && s[..|h|] == h && s[|h|] == ':'
    ensures IndexOf(s, ":") == Some(|h|)
  {
    assert OccursAt(s, ":", |h|) by { assert s[|h|..|h| + 1] == [s[|h|]]; }
    forall j | 0 <= j < |h| ensures !OccursAt(s, ":", j) {
      assert s[j] == h[j] && IsDigit(h[j]);
      assert s[j..j + 1] == [s[j]];
    }
    IndexOfAt(s, ":", |h|);
  }

  /** The groups `(\d{1,2})` and `(\d{2})`. */
  predicate Shape24(h: string, m: string) {
    1 <= |h| <= 2 && AllDigits(h) && |m| == 2 && AllDigits(m)
  }

  /** The groups of the 12-hour pattern, the `\s*` between and the suffix. */
  predicate Shape12(h: string, m: string, sp: string, suffix: string) {
    Shape24(h, m) && AllSpace(sp) && |suffix| == 2 && (ToLower(suffix) == "am" || ToLower(suffix) == "pm")
  }

  /** A well-formed 24-hour value is recognised with its groups. */
  lemma Match24Complete(h: string, m: string)
    requires Shape24(h, m)
    ensures Match24(h + ":" + m) == Some((h, m))
  {
    var s := h + ":" + m;
    assert s[..|h|] == h;
    ColonAfterDigits(s, h);
    assert s[|h| + 1..] == m;
  }

  /** A well-formed 12-hour value is recognised with its groups and suffix. */
  lemma Match12Complete(h: string, m: string, sp: string, suffix: string)
    requires Shape12(h, m, sp, suffix)
    ensures Match12(h + ":" + m + sp + suffix) == Some((h, m, ToLower(suffix) == "pm"))
  {
    var s := h + ":" + m + sp + suffix;
    assert s[..|h|] == h;
    ColonAfterDigits(s, h);
    var rest := s[|h| + 1..];
    assert rest == m + sp + suffix by {
      assert s == (h + ":") + (m + sp + suffix);
      assert |h + ":"| == |h| + 1;
    }
    assert rest[..2] == m;
    assert rest[2..|rest| - 2] == sp;
    assert rest[|rest| - 2..] == suffix;
  }

  /** A 24-hour value `H:MM` or `HH:MM` is shown with its hour padded to two
      digits and its minute as written. */
  lemma ParseTime24(h: string, m: string)
    requires Shape24(h, m)
    ensures ParseTime(h + ":" + m) == (PadStart2(h), m)
    ensures |h| == 1 ==> ParseTime(h + ":" + m) == ("0" + h, m)
    ensures |h| == 2 ==> ParseTime(h + ":" + m) == (h, m)
  {
    Match24Complete(h, m);
  }

  /** Every value the pickers produce from an hour option and a two-digit
      minute is shown again as that hour and that minute. */
  lemma {:induction false} PickedTimeRoundTrip(hour: nat, m: string)
    requires hour < 24 && |m| == 2 && AllDigits(m)
    ensures ParseTime(Hours()[hour] + ":" + m) == (Hours()[hour], m)
  {
    Match24Complete(TwoDigits(hour), m);
  }

  /** Choosing an hour keeps the minute shown and then shows the chosen hour. */
  lemma HourChangeShowsChoice(i: nat, value: string)
    requires i < 24
    ensures ParseTime(HourChange(Hours()[i], value)) == (Hours()[i], ParseTime(value).1)
  {
    PickedTimeRoundTrip(i, ParseTime(value).1);
  }

  /** Choosing a minute keeps a two-digit hour and then shows the chosen minute. */
  lemma MinuteChangeShowsChoice(m: string, value: string)
    requires |m| == 2 && AllDigits(m)
    requires |ParseTime(value).0| == 2
    ensures ParseTime(MinuteChange(m, value)) == (ParseTime(value).0, m)
  {
    Match24Complete(ParseTime(value).0, m);
  }

  /** A 12-hour value converts to the 24-hour hour: 12 AM is `00`, 12 PM is `12`,
      and any other PM hour gains twelve. */
  lemma {:induction false} TwelveHourValue(hour: nat, m: string, sp: string, suffix: string)
    requires 1 <= hour <= 12 && |m| == 2 && AllDigits(m) && AllSpace(sp)
    requires |suffix| == 2 && (ToLower(suffix) == "am" || ToLower(suffix) == "pm")
    ensures ParseTime(NatToString(hour) + ":" + m + sp + suffix) ==
              (TwoDigits(if ToLower(suffix) == "pm" then hour % 12 + 12 else hour % 12), m)
  {
    var h := NatToString(hour);
    var s := h + ":" + m + sp + suffix;
    Match12Complete(h, m, sp, suffix);
    DigitsValueOfNatToString(hour);
    assert s[..|h|] == h;
    ColonAfterDigits(s, h);
    assert s[|h| + 1..] == m + sp + suffix;
    assert Match24(s).None?;
    var pm := ToLower(suffix) == "pm";
    var v := To24(hour, pm);
    assert v == (if pm then hour % 12 + 12 else hour % 12);
    assert ParseTime(s).0 == PadStart2(NatToString(v));
  }

  /** Every 12-hour value is shown as the 24-hour conversion of `parseInt` of
      its hour group, padded to two digits, with its minute as written:
      leading zeros (`09:30 PM`), hour 0 and hours above 12 included, since the
      pattern does not range-check the hour. */
  lemma TwelveHour(h: string, m: string, sp: string, suffix: string)
    requires Shape12(h, m, sp, suffix)
    ensures ParseTime(h + ":" + m + sp + suffix)
              == (PadStart2(NatToString(To24(DigitsValue(h), ToLower(suffix) == "pm"))), m)
  {
    var s := h + ":" + m + sp + suffix;
    Match12Complete(h, m, sp, suffix);
    TwelveHourIsNot24(h, m, sp, suffix);
    assert s != [];
  }

  /** A 12-hour value never has the 24-hour shape: what follows its colon is
      longer than two characters. */
  lemma TwelveHourIsNot24(h: string, m: string, sp: string, suffix: string)
    requires Shape12(h, m, sp, suffix)
    ensures Match24(h + ":" + m + sp + suffix).None?
  {
    var s := h + ":" + m + sp + suffix;
    assert s[..|h|] == h;
    ColonAfterDigits(s, h);
    assert |s[|h| + 1..]| == |m| + |sp| + |suffix|;
  }

  /** `parseInt` ignores a leading zero: a 12-hour value with hour `0d` is
      shown as the one with hour `d`, so `09:30 PM` is shown as `21`. */
  lemma LeadingZeroHour(d: char, m: string, sp: string, suffix: string)
    requires Shape12([d], m, sp, suffix)
    ensures Shape12(['0', d], m, sp, suffix)
    ensures ParseTime(['0', d] + ":" + m + sp + suffix) == ParseTime([d] + ":" + m + sp + suffix)
  {
    assert [d][0] == d && IsDigit(d);
    assert AllDigits(['0', d]);
    assert DigitsValue(['0', d]) == DigitsValue([d]) by {
      assert ['0', d][..1] == ['0'];
      assert [d][..0] == [];
    }
    TwelveHour(['0', d], m, sp, suffix);
    TwelveHour([d], m, sp, suffix);
  }

  /** Hour 0 in the morning stays 0: `0:15 AM` is shown as `00`. */
  lemma ZeroAm()
    ensures ParseTime("0:15 AM") == ("00", "15")
  {
    assert "0:15 AM" == "0" + ":" + "15" + " " + "AM";
    assert Shape12("0", "15", " ", "AM") by {
      assert ToLower("AM") == "am";
    }
    TwelveHour("0", "15", " ", "AM");
    assert DigitsValue("0") == 0 by { assert "0"[..0] == []; }
    assert To24(0, false) == 0;
    assert NatToString(0) == "0";
    assert PadStart2("0") == "00";
  }

  /** No range check: any PM hour from 13 to 99 gains twelve, giving a
      displayed hour of 25 to 111. */
  lemma UnrangedPmHour(hour: nat, m: string)
    requires 13 <= hour <= 99 && |m| == 2 && AllDigits(m)
    ensures ParseTime(NatToString(hour) + ":" + m + "PM") == (NatToString(hour + 12), m)
  {
    var h := NatToString(hour);
    assert Shape12(h, m, "", "PM") by {
      assert ToLower("PM") == "pm";
    }
    assert h + ":" + m + "PM" == h + ":" + m + "" + "PM";
    TwelveHour(h, m, "", "PM");
    DigitsValueOfNatToString(hour);
    assert To24(DigitsValue(h), ToLower("PM") == "pm") == hour + 12;
    assert |NatToString(hour + 12)| >= 2;
  }

  /** `13:00 PM` is read as a 12-hour value with hour `13`. */
  lemma ThirteenPmGroups()
    ensures Match24("13:00 PM").None?
    ensures Match12("13:00 PM") == Some(("13", "00", true))
  {
    var s := "13:00 PM";
    assert s == "13" + ":" + "00" + " " + "PM";
    assert Shape12("13", "00", " ", "PM") by {
      assert ToLower("PM") == "pm";
    }
    Match12Complete("13", "00", " ", "PM");
    ColonAfterDigits(s, "13");
    assert |s[3..]| == 5;
  }

  /** Hours are not range-checked: `13:00 PM` is shown as hour `25`. */
  lemma ThirteenPm()
    ensures ParseTime("13:00 PM") == ("25", "00")
  {
    ThirteenPmGroups();
    assert DigitsValue("13") == 13 by { assert "13"[..1] == "1"; }
    assert To24(13, true) == 25;
    assert NatToString(25) == "25";
  }

  /** A value that has neither the 24-hour nor the 12-hour shape, the empty
      value included, falls back to 09:00. */
  lemma UnreadableFallsBack(s: string)
    requires forall h, m :: Shape24(h, m) ==> s != h + ":" + m
    requires forall h, m, sp, suffix :: Shape12(h, m, sp, suffix) ==> s != h + ":" + m + sp + suffix
    ensures ParseTime(s) == ("09", "00")
  {
    Match24Sound(s);
    Match12Sound(s);
  }

  /** What `Match24` recognises has the 24-hour shape. */
  lemma Match24Sound(s: string)
    ensures Match24(s).Some? ==> Shape24(Match24(s).value.0, Match24(s).value.1)
                                 && s == Match24(s).value.0 + ":" + Match24(s).value.1
  {
  }

  /** What `Match12` recognises has the 12-hour shape, with the white space
      and the suffix it skipped over. */
  lemma Match12Sound(s: string)
    ensures Match12(s).Some? ==>
              var h, m := Match12(s).value.0, Match12(s).value.1;
              |s| >= |h| + 5
              && Shape12(h, m, s[|h| + 3..|s| - 2], s[|s| - 2..])
              && s == h + ":" + m + s[|h| + 3..|s| - 2] + s[|s| - 2..]
  {
    match Match12(s)
    case None =>
    case Some((h, m, pm)) =>
      assert s == s[..|h|] + [s[|h|]] + s[|h| + 1..|h| + 3] + s[|h| + 3..|s| - 2] + s[|s| - 2..];
  }

  /** For instance, `noon` falls back to 09:00. */
  lemma NoonFallsBack()
    ensures ParseTime("noon") == ("09", "00")
  {
    forall h, m | Shape24(h, m) ensures "noon" != h + ":" + m {
      assert (h + ":" + m)[0] == h[0] && IsDigit(h[0]);
    }
    forall h, m, sp, suffix | Shape12(h, m, sp, suffix) ensures "noon" != h + ":" + m + sp + suffix {
      assert (h + ":" + m + sp + suffix)[0] == h[0] && IsDigit(h[0]);
    }
    UnreadableFallsBack("noon");
  }
}
