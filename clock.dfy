/** The elapsed-time display: whole seconds written as minutes and seconds, "MM:SS". */
module Clock {

  predicate IsDigits(s: string)
  {
    forall i :: 0 <= i < |s| ==> '0' <= s[i] <= '9'
  }

  function DigitChar(d: nat): (c: char)
    requires d < 10
    ensures '0' <= c <= '9' && c as int - '0' as int == d
  {
    ('0' as int + d) as char
  }

  /** Decimal notation of `n` without leading zeros, as JavaScript's toString writes it. */
  function NatToString(n: nat): (s: string)
    ensures IsDigits(s) && |s| >= 1
    ensures |s| == 1 <==> n < 10
    ensures |s| > 1 ==> s[0] != '0'
  {
    if n < 10 then [DigitChar(n)] else NatToString(n / 10) + [DigitChar(n % 10)]
  }

  /** The number a string of decimal digits denotes (leading zeros allowed). */
  function ParseDigits(s: string): nat
    requires IsDigits(s)
  {
    if s == [] then 0 else 10 * ParseDigits(s[..|s| - 1]) + (s[|s| - 1] as int - '0' as int)
  }

  /** Reading back the decimal notation of `n` gives `n`. */
  lemma {:induction false} ParseNatToString(n: nat)
    ensures ParseDigits(NatToString(n)) == n
  {
    var s := NatToString(n);
    if n >= 10 {
      ParseNatToString(n / 10);
      assert s[..|s| - 1] == NatToString(n / 10);
    }
  }

  /** Two-digit numbers and only they have at most two digits. */
  lemma NatToStringShort(n: nat)
    ensures |NatToString(n)| <= 2 <==> n < 100
  {
    if n >= 10 {
      assert |NatToString(n)| == |NatToString(n / 10)| + 1;
    }
  }

  /** String.prototype.padStart: prefix `fill` until `s` is `width` long; a string
      already that long is unchanged. */
  function PadStart(s: string, width: nat, fill: char): (r: string)
    ensures |r| == if |s| >= width then |s| else width
    ensures r[|r| - |s|..] == s
    ensures forall i :: 0 <= i < |r| - |s| ==> r[i] == fill
    decreases width - |s|
  {
    if |s| >= width then s else PadStart([fill] + s, width, fill)
  }

  /** A leading zero does not change the number. */
  lemma {:induction false} ParseLeadingZero(s: string)
    requires IsDigits(s)
    ensures IsDigits("0" + s) && ParseDigits("0" + s) == ParseDigits(s)
  {
    if s != [] {
      var z := "0" + s;
      assert z[..|z| - 1] == "0" + s[..|s| - 1];
      ParseLeadingZero(s[..|s| - 1]);
    }
  }

  /** Padding with zeros keeps the digits and the number they denote. */
  lemma {:induction false} ParsePadded(s: string, width: nat)
    requires IsDigits(s)
    ensures IsDigits(PadStart(s, width, '0'))
    ensures ParseDigits(PadStart(s, width, '0')) == ParseDigits(s)
    decreases width - |s|
  {
    if |s| < width {
      ParseLeadingZero(s);
      assert "0" + s == ['0'] + s;
      ParsePadded(['0'] + s, width);
    }
  }

  function Pad2(n: nat): string
  {
    PadStart(NatToString(n), 2, '0')
  }

  /** A padded number is at least two digits, exactly two below 100, and reads back
      to the number. */
  lemma Pad2ReadsBack(n: nat)
    ensures IsDigits(Pad2(n)) && ParseDigits(Pad2(n)) == n
    ensures |Pad2(n)| >= 2 && (|Pad2(n)| == 2 <==> n < 100)
  {
    ParsePadded(NatToString(n), 2);
    ParseNatToString(n);
    NatToStringShort(n);
  }

  /** The timer display: minutes and seconds, each at least two digits wide. */
  function FormatTime(seconds: nat): (t: string)
  {
    Pad2(seconds / 60) + ":" + Pad2(seconds % 60)
  }

  /** A display has at least five characters, the colon third from the end and
      digits on both sides of it. */
  predicate IsClock(t: string)
  {
    |t| >= 5 && t[|t| - 3] == ':' && IsDigits(t[..|t| - 3]) && IsDigits(t[|t| - 2..])
  }

  /** Reads a display back into seconds. */
  function ParseTime(t: string): nat
    requires IsClock(t)
  {
    60 * ParseDigits(t[..|t| - 3]) + ParseDigits(t[|t| - 2..])
  }

  /** Minutes, a colon and two digits of seconds make a well-formed display, and the
      two fields can be cut out of it again. */
  lemma JoinFields(m: string, s: string)
    requires IsDigits(m) && |m| >= 2 && IsDigits(s) && |s| == 2
    ensures IsClock(m + ":" + s)
    ensures ParseTime(m + ":" + s) == 60 * ParseDigits(m) + ParseDigits(s)
  {
    JoinSlices(m, s);
  }

  lemma JoinSlices(m: string, s: string)
    requires |s| == 2
    ensures var t := m + ":" + s;
      |t| == |m| + 3 && t[|m|] == ':' && t[..|m|] == m && t[|m| + 1..] == s
  {
    var t := m + ":" + s;
    assert t[..|m|] == m;
    assert t[|m| + 1..] == s;
  }

  /** The display is the padded minutes, a colon, and the padded seconds, which are
      always exactly two digits. */
  lemma FormatTimeShape(seconds: nat)
    ensures IsDigits(Pad2(seconds / 60)) && IsDigits(Pad2(seconds % 60))
    ensures IsClock(FormatTime(seconds))
    ensures ParseTime(FormatTime(seconds)) == 60 * ParseDigits(Pad2(seconds / 60)) + ParseDigits(Pad2(seconds % 60))
    ensures |FormatTime(seconds)| == |Pad2(seconds / 60)| + 3
  {
    var m, s := Pad2(seconds / 60), Pad2(seconds % 60);
    Pad2ReadsBack(seconds / 60);
    Pad2ReadsBack(seconds % 60);
    assert FormatTime(seconds) == m + ":" + s;
    JoinFields(m, s);
  }

  /** Every display is well formed and reads back to the seconds it shows. */
  lemma FormatTimeRoundTrip(seconds: nat)
    ensures IsClock(FormatTime(seconds))
    ensures ParseTime(FormatTime(seconds)) == seconds
  {
    var m, s := Pad2(seconds / 60), Pad2(seconds % 60);
    Pad2ReadsBack(seconds / 60);
    Pad2ReadsBack(seconds % 60);
    JoinFields(m, s);
    assert FormatTime(seconds) == m + ":" + s;
  }

  /** The display is exactly five characters, "MM:SS", below 100 minutes. */
  lemma FormatTimeWidth(seconds: nat)
    ensures |FormatTime(seconds)| == 5 <==> seconds < 6000
  {
    FormatTimeShape(seconds);
    Pad2ReadsBack(seconds / 60);
  }

  lemma Pad2OneDigit(d: nat)
    requires d < 10
    ensures Pad2(d) == ['0', DigitChar(d)]
  {
    assert NatToString(d) == [DigitChar(d)];
    assert PadStart([DigitChar(d)], 2, '0') == PadStart(['0', DigitChar(d)], 2, '0');
  }

  /** Under ten minutes, with fewer than ten seconds past the minute, both fields get a
      leading zero. */
  lemma FormatTimeOneDigitFields(m: nat, s: nat)
    requires m < 10 && s < 10
    ensures FormatTime(60 * m + s) == ['0', DigitChar(m), ':', '0', DigitChar(s)]
  {
    FormatTimeFields(m, s);
    Pad2OneDigit(m);
    Pad2OneDigit(s);
    JoinPairs(Pad2(m), Pad2(s));
  }

  lemma JoinPairs(a: string, b: string)
    requires |a| == 2 && |b| == 2
    ensures a + ":" + b == [a[0], a[1], ':', b[0], b[1]]
  {
  }

  lemma FormatTimeFields(m: nat, s: nat)
    requires s < 60
    ensures FormatTime(60 * m + s) == Pad2(m) + ":" + Pad2(s)
  {
    SplitSeconds(m, s);
  }

  lemma SplitSeconds(m: nat, s: nat)
    requires s < 60
    ensures (60 * m + s) / 60 == m && (60 * m + s) % 60 == s
  {
    var n := 60 * m + s;
    assert n == 60 * (n / 60) + n % 60;
  }

  /** 125 seconds is shown as "02:05". */
  lemma FormatTimeExample()
    ensures FormatTime(125) == "02:05"
  {
    FormatTimeOneDigitFields(2, 5);
  }
}
