/** `formatTime`: seconds shown as `mm:ss`, as the timer display and the page title show them. */
module TimeFormat {
  import Text

  /** JavaScript's `a % 60`: the remainder takes the sign of `a`. */
  function JsRem60(a: int): (r: int)
    ensures -60 < r < 60
    ensures a >= 0 ==> r >= 0
    ensures a < 0 ==> r <= 0
    ensures (a - r) % 60 == 0
  {
    if a >= 0 then a % 60 else -((-a) % 60)
  }

  /**
   * `Math.floor(sec / 60)` and `sec % 60`, each written in decimal and
   * padded to two characters, joined by a colon; for a non-negative count
   * the colon is the third character from the end.
   */
  function FormatTime(sec: int): (r: string)
    ensures |r| >= 5
    ensures sec >= 0 ==> r[|r| - 3] == ':'
  {
    Text.PadStart2(Text.IntToString(sec / 60)) + ":" + Text.PadStart2(Text.IntToString(JsRem60(sec)))
  }

  /**
   * `r` is minutes, a colon and exactly two digits of seconds, and reading
   * both numbers back gives `sec`.
   */
  predicate ReadsBack(r: string, sec: int) {
    && |r| >= 5 && r[|r| - 3] == ':'
    && Text.AllDigits(r[..|r| - 3]) && Text.AllDigits(r[|r| - 2..])
    && Text.DecimalValue(r[..|r| - 3]) == sec / 60
    && Text.DecimalValue(r[|r| - 2..]) == sec % 60
    && 60 * Text.DecimalValue(r[..|r| - 3]) + Text.DecimalValue(r[|r| - 2..]) == sec
  }

  /**
   * For a non-negative count of seconds the text is minutes, a colon, and
   * exactly two digits of seconds; reading both numbers back gives `sec`.
   */
  lemma FormatTimeRoundTrip(sec: int)
    requires sec >= 0
    ensures ReadsBack(FormatTime(sec), sec)
  {
    var mm := Text.PadStart2(Text.IntToString(sec / 60));
    var ss := Text.PadStart2(Text.IntToString(sec % 60));
    NonNegativeParts(sec);
    PaddedPart(sec / 60);
    PaddedPart(sec % 60);
    Layout(FormatTime(sec), mm, ss, sec);
  }

  /** For a non-negative count the seconds part is the Euclidean remainder. */
  lemma NonNegativeParts(sec: int)
    requires sec >= 0
    ensures FormatTime(sec) == Text.PadStart2(Text.IntToString(sec / 60)) + ":" + Text.PadStart2(Text.IntToString(sec % 60))
  {
    assert JsRem60(sec) == sec % 60;
  }

  /** A non-negative part, padded, is at least two digits that read back as the part; below 100 it is exactly two. */
  lemma PaddedPart(n: nat)
    ensures var p := Text.PadStart2(Text.IntToString(n));
      && |p| >= 2 && Text.AllDigits(p) && Text.DecimalValue(p) == n
      && (n < 100 ==> |p| == 2)
  {
    Text.PadStart2Value(Text.IntToString(n));
    if 10 <= n < 100 {
      assert Text.NatToString(n) == Text.NatToString(n / 10) + [Text.DigitChar(n % 10)];
    }
  }

  /** Minutes and seconds joined by a colon can each be read back from their end of the text. */
  lemma Layout(r: string, mm: string, ss: string, sec: int)
    requires sec >= 0 && r == mm + ":" + ss
    requires |mm| >= 2 && Text.AllDigits(mm) && Text.DecimalValue(mm) == sec / 60
    requires |ss| == 2 && Text.AllDigits(ss) && Text.DecimalValue(ss) == sec % 60
    ensures ReadsBack(r, sec)
  {
    assert r[..|r| - 3] == mm && r[|r| - 2..] == ss;
  }

  /**
   * For a negative count: a minus sign and the digits of the floored
   * minutes' magnitude, the colon at `k`, then "00" when JavaScript's
   * remainder is zero and otherwise a minus sign and the digits of its
   * magnitude.
   */
  predicate NegativeLayout(r: string, k: nat, sec: int) {
    && 2 <= k && k + 3 <= |r| && r[k] == ':'
    && r[0] == '-' && Text.AllDigits(r[1..k]) && Text.DecimalValue(r[1..k]) == -(sec / 60)
    && (JsRem60(sec) == 0 ==> r[k + 1..] == "00")
    && (JsRem60(sec) != 0 ==>
          r[k + 1] == '-' && Text.AllDigits(r[k + 2..]) && Text.DecimalValue(r[k + 2..]) == -JsRem60(sec))
  }

  /** Every negative count is shown with JavaScript's signs on both parts. */
  lemma FormatTimeNegative(sec: int) returns (k: nat)
    requires sec < 0
    ensures NegativeLayout(FormatTime(sec), k, sec)
  {
    var mm := Text.IntToString(sec / 60);
    var ss := if JsRem60(sec) == 0 then "00" else Text.IntToString(JsRem60(sec));
    assert Text.PadStart2(mm) == mm;
    if JsRem60(sec) == 0 {
      assert Text.IntToString(0) == "0";
    }
    assert FormatTime(sec) == mm + ":" + ss;
    k := |mm|;
    NegativeLayoutOf(FormatTime(sec), mm, ss, sec);
  }

  /** Splitting a negative display at its colon gives back both signed parts. */
  lemma NegativeLayoutOf(r: string, mm: string, ss: string, sec: int)
    requires sec < 0 && r == mm + ":" + ss
    requires |mm| >= 2 && mm[0] == '-' && Text.AllDigits(mm[1..]) && Text.DecimalValue(mm[1..]) == -(sec / 60)
    requires JsRem60(sec) == 0 ==> ss == "00"
    requires JsRem60(sec) != 0 ==>
      |ss| >= 2 && ss[0] == '-' && Text.AllDigits(ss[1..]) && Text.DecimalValue(ss[1..]) == -JsRem60(sec)
    ensures NegativeLayout(r, |mm|, sec)
  {
    assert r[1..|mm|] == mm[1..];
    assert r[|mm| + 1..] == ss;
    if JsRem60(sec) != 0 {
      assert r[|mm| + 2..] == ss[1..];
    }
  }

  /** Below 100 minutes the text is exactly five characters long. */
  lemma FormatTimeWidth(sec: int)
    requires 0 <= sec < 6000
    ensures |FormatTime(sec)| == 5
  {
    assert |Text.NatToString(sec / 60)| <= 2 by {
      if sec / 60 >= 10 {
        assert Text.NatToString(sec / 60) == Text.NatToString(sec / 60 / 10) + [Text.DigitChar(sec / 60 % 10)];
      }
    }
  }

  /** The default work length reads "25:00". */
  lemma FormatDefaultWork()
    ensures FormatTime(25 * 60) == "25:00"
  {
    assert Text.DigitChar(2) == '2' && Text.DigitChar(5) == '5' && Text.DigitChar(0) == '0';
    assert Text.NatToString(2) == "2";
    assert Text.NatToString(25) == "25";
    assert Text.NatToString(0) == "0";
    assert Text.PadStart2("0") == "00";
    assert 25 * 60 / 60 == 25 && JsRem60(25 * 60) == 0;
    assert Text.IntToString(25) == "25" && Text.IntToString(0) == "0";
  }

  /**
   * A negative count, reachable with a negative configured length, keeps
   * JavaScript's signs: -181 seconds shows as "-4:-1".
   */
  lemma FormatNegative()
    ensures FormatTime(-181) == "-4:-1"
  {
    assert -181 / 60 == -4;
    assert JsRem60(-181) == -1;
    assert Text.DigitChar(4) == '4' && Text.DigitChar(1) == '1';
    assert Text.IntToString(-4) == "-4";
    assert Text.IntToString(-1) == "-1";
  }
}
