/** The colour derived from a decoded sample: the ambient-intensity rescale
    (bojata.py:82-86) and the `f'#{r:02x}{g:02x}{b:02x}'` text stored in
    `curr_color` (bojata.py:90).  Neither step clamps: a channel above 255
    stays above 255 and is written with more than two hex digits. */
module Color {
  import opened Wrappers
  import RgbLine

  datatype Rgb = Rgb(red: nat, green: nat, blue: nat)

  /** `int(i) or 1`: an intensity of 0 is replaced by 1. */
  function Total(intensity: nat): (t: nat)
    ensures t > 0
    ensures intensity > 0 ==> t == intensity
    ensures intensity == 0 ==> t == 1
  {
    if intensity == 0 then 1 else intensity
  }

  /** `int(c / total * 255)`, taken as the exact floor of `c * 255 / total`. */
  function Rescale(c: nat, total: nat): (r: nat)
    requires total > 0
    ensures r * total <= c * 255 < (r + 1) * total
  {
    c * 255 / total
  }

  /** `int(c / total * 255)` raises OverflowError: the quotient, or its
      product with 255, is past the largest double (2^1024 and up).  Taken
      exactly, as `c * 255 >= 2^1024 * total`. */
  predicate RescaleOverflows(c: nat, total: nat) {
    c * 255 >= 0x10000000000000000000000000000000000000000000000000000000000000000000000000000000000000000000000000000000000000000000000000000000000000000000000000000000000000000000000000000000000000000000000000000000000000000000000000000000000000000000000000000000000000000 * total
  }

  /** One of the rescales of bojata.py:84-86 raises OverflowError.  Without
      an intensity nothing is rescaled, and `'%02x'` has no size limit. */
  predicate Overflows(x: RgbLine.RawSample) {
    && x.intensity.Some?
    && var t := Total(x.intensity.value);
       RescaleOverflows(x.red, t) || RescaleOverflows(x.green, t) || RescaleOverflows(x.blue, t)
  }

  /** The channels after the intensity adjustment (bojata.py:82-86), when
      no rescale overflows. */
  function Normalize(x: RgbLine.RawSample): (c: Rgb)
    ensures x.intensity.None? ==> c == Rgb(x.red, x.green, x.blue)
  {
    match x.intensity
    case None => Rgb(x.red, x.green, x.blue)
    case Some(i) =>
      var total := Total(i);
      Rgb(Rescale(x.red, total), Rescale(x.green, total), Rescale(x.blue, total))
  }

  /** With an intensity present, every channel is the floor of `c * 255 / I`,
      where an intensity of 0 counts as 1. */
  lemma NormalizeWithIntensity(x: RgbLine.RawSample)
    requires x.intensity.Some?
    ensures var t := if x.intensity.value == 0 then 1 else x.intensity.value;
            var c := Normalize(x);
            && c.red * t <= x.red * 255 < (c.red + 1) * t
            && c.green * t <= x.green * 255 < (c.green + 1) * t
            && c.blue * t <= x.blue * 255 < (c.blue + 1) * t
  {
  }

  /** An intensity of 0 gives exactly the colour an intensity of 1 gives. */
  lemma ZeroIntensityIsOne(x: RgbLine.RawSample)
    ensures Normalize(x.(intensity := Some(0))) == Normalize(x.(intensity := Some(1)))
  {
  }

  lemma {:induction false} RescaleMonotone(c1: nat, c2: nat, total: nat)
    requires total > 0 && c1 <= c2
    ensures Rescale(c1, total) <= Rescale(c2, total)
  {
    var r1, r2 := Rescale(c1, total), Rescale(c2, total);
    if r2 < r1 {
      assert (r2 + 1) * total <= r1 * total by {
        MultiplyMonotone(r2 + 1, r1, total);
      }
    }
  }

  lemma MultiplyMonotone(a: nat, b: nat, k: nat)
    requires a <= b
    ensures a * k <= b * k
  {
  }

  /** A channel no brighter than the ambient intensity is rescaled to at most 255. */
  lemma {:induction false} RescaleBounded(c: nat, total: nat)
    requires 0 < total && c <= total
    ensures Rescale(c, total) <= 255
  {
    var r := Rescale(c, total);
    if r > 255 {
      assert 256 * total <= r * total by {
        MultiplyMonotone(256, r, total);
      }
    }
  }

  /** Every channel of a sample whose channels do not exceed its intensity
      fits in one byte after the rescale, and no rescale overflows. */
  lemma NormalizeBounded(x: RgbLine.RawSample)
    requires x.intensity.Some?
    requires x.red <= x.intensity.value && x.green <= x.intensity.value && x.blue <= x.intensity.value
    ensures var c := Normalize(x); c.red <= 255 && c.green <= 255 && c.blue <= 255
    ensures !Overflows(x)
  {
    var t := Total(x.intensity.value);
    RescaleBounded(x.red, t);
    RescaleBounded(x.green, t);
    RescaleBounded(x.blue, t);
  }

  /** `100,100,100;200` is displayed as 127,127,127. */
  lemma NormalizeHalfIntensity()
    ensures Normalize(RgbLine.RawSample(100, 100, 100, Some(200), false)) == Rgb(127, 127, 127)
  {
  }

  // ---------------------------------------------------------------------
  // '%02x' and the `curr_color` text.

  /** The lowercase hex digit for `d`. */
  function HexDigit(d: nat): (ch: char)
    requires d < 16
    ensures IsHexDigit(ch)
  {
    if d < 10 then ('0' as int + d) as char else ('a' as int + d - 10) as char
  }

  predicate IsHexDigit(ch: char) {
    '0' <= ch <= '9' || 'a' <= ch <= 'f'
  }

  function HexDigitValue(ch: char): (d: nat)
    requires IsHexDigit(ch)
    ensures d < 16
  {
    if ch <= '9' then ch as int - '0' as int else ch as int - 'a' as int + 10
  }

  /** `'%x' % n`: lowercase hexadecimal with no leading zeros. */
  function Hex(n: nat): (s: string)
    ensures |s| > 0
  {
    if n < 16 then [HexDigit(n)] else Hex(n / 16) + [HexDigit(n % 16)]
  }

  /** `'%02x' % n`: `Hex(n)` padded on the left with '0' to two characters. */
  function Hex02(n: nat): string {
    var h := Hex(n);
    if |h| < 2 then "0" + h else h
  }

  /** `f'#{r:02x}{g:02x}{b:02x}'`. */
  function ColorText(c: Rgb): string {
    "#" + Hex02(c.red) + Hex02(c.green) + Hex02(c.blue)
  }

  predicate AllHexDigits(s: string) {
    forall k :: 0 <= k < |s| ==> IsHexDigit(s[k])
  }

  /** The number a run of hex digits denotes (reference for `Hex`). */
  function HexValue(s: string): nat
    requires AllHexDigits(s)
  {
    if s == [] then 0 else 16 * HexValue(s[..|s| - 1]) + HexDigitValue(s[|s| - 1])
  }

  lemma HexDigitRoundTrip(d: nat)
    requires d < 16
    ensures HexDigitValue(HexDigit(d)) == d
  {
  }

  lemma {:induction false} HexAllDigits(n: nat)
    ensures AllHexDigits(Hex(n))
  {
    if n >= 16 {
      HexAllDigits(n / 16);
    }
  }

  /** `int(format(n, 'x'), 16) == n`. */
  lemma {:induction false} HexValueHex(n: nat)
    ensures AllHexDigits(Hex(n)) && HexValue(Hex(n)) == n
  {
    HexAllDigits(n);
    HexDigitRoundTrip(n % 16);
    if n >= 16 {
      var s := Hex(n);
      assert s[..|s| - 1] == Hex(n / 16);
      HexValueHex(n / 16);
    }
  }

  /** One or two digits exactly for the values below 256. */
  lemma HexLength(n: nat)
    ensures |Hex(n)| == 1 <==> n < 16
    ensures |Hex(n)| <= 2 <==> n < 256
  {
    if n >= 16 {
      assert |Hex(n)| == |Hex(n / 16)| + 1;
      HexLength(n / 16);
    }
  }

  /** '%02x' writes at least two lowercase hex digits, exactly two below 256,
      and reads back to the value. */
  lemma Hex02Facts(n: nat)
    ensures AllHexDigits(Hex02(n)) && |Hex02(n)| >= 2
    ensures |Hex02(n)| == 2 <==> n < 256
    ensures HexValue(Hex02(n)) == n
  {
    HexValueHex(n);
    HexLength(n);
    var h := Hex(n);
    if |h| < 2 {
      assert Hex02(n) == "0" + h;
      assert Hex02(n)[..1] == "0";
    }
  }

  /** Reads `#rrggbb` back into its channels (reference for `ColorText`). */
  function ParseColorText(s: string): (r: Option<Rgb>)
    ensures r.Some? ==> r.value.red < 256 && r.value.green < 256 && r.value.blue < 256
  {
    if |s| == 7 && s[0] == '#' && AllHexDigits(s[1..]) then
      assert AllHexDigits(s[1..3]) && AllHexDigits(s[3..5]) && AllHexDigits(s[5..7]);
      Some(Rgb(Byte(s[1..3]), Byte(s[3..5]), Byte(s[5..7])))
    else None
  }

  function Byte(s: string): (b: nat)
    requires |s| == 2 && AllHexDigits(s)
    ensures b < 256
  {
    16 * HexDigitValue(s[0]) + HexDigitValue(s[1])
  }

  lemma ByteValue(s: string)
    requires |s| == 2 && AllHexDigits(s)
    ensures Byte(s) == HexValue(s)
  {
    var t := s[..1];
    assert t == [s[0]] && t[..0] == [];
    assert HexValue(t) == HexDigitValue(s[0]);
  }

  lemma {:induction false} ColorTextShape(c: Rgb)
    ensures var s := ColorText(c);
            && |s| >= 7 && s[0] == '#' && AllHexDigits(s[1..])
            && (|s| == 7 <==> c.red < 256 && c.green < 256 && c.blue < 256)
  {
    Hex02Facts(c.red);
    Hex02Facts(c.green);
    Hex02Facts(c.blue);
    var s := ColorText(c);
    var digits := Hex02(c.red) + Hex02(c.green) + Hex02(c.blue);
    assert s == "#" + digits;
    assert s[1..] == digits;
    AllHexDigitsConcat(Hex02(c.red), Hex02(c.green));
    AllHexDigitsConcat(Hex02(c.red) + Hex02(c.green), Hex02(c.blue));
  }

  lemma AllHexDigitsConcat(a: string, b: string)
    requires AllHexDigits(a) && AllHexDigits(b)
    ensures AllHexDigits(a + b)
  {
    forall k | 0 <= k < |a + b|
      ensures IsHexDigit((a + b)[k])
    {
      if k < |a| {
        assert (a + b)[k] == a[k];
      } else {
        assert (a + b)[k] == b[k - |a|];
      }
    }
  }

  /** Round trip: a colour whose channels fit in a byte is written as exactly
      seven characters that read back to the same channels. */
  lemma {:induction false} ParseColorTextRoundTrip(c: Rgb)
    requires c.red < 256 && c.green < 256 && c.blue < 256
    ensures |ColorText(c)| == 7
    ensures ParseColorText(ColorText(c)) == Some(c)
  {
    ColorTextShape(c);
    Hex02Facts(c.red);
    Hex02Facts(c.green);
    Hex02Facts(c.blue);
    var s := ColorText(c);
    assert s[1..3] == Hex02(c.red);
    assert s[3..5] == Hex02(c.green);
    assert s[5..7] == Hex02(c.blue);
    ByteValue(s[1..3]);
    ByteValue(s[3..5]);
    ByteValue(s[5..7]);
  }

  /** Conversely, only such colours read back at all. */
  lemma ParseColorTextOnlyBytes(c: Rgb)
    requires ParseColorText(ColorText(c)).Some?
    ensures c.red < 256 && c.green < 256 && c.blue < 256
  {
    ColorTextShape(c);
  }

  // ---------------------------------------------------------------------
  // What Tk makes of the text.

  /** A hex digit in either case, as Tk reads one. */
  predicate IsTkHexDigit(ch: char) {
    IsHexDigit(ch) || 'A' <= ch <= 'F'
  }

  /** The `#` form of a Tk colour: 3, 6, 9 or 12 hex digits (4, 8, 12 or 16
      bits per channel).  Any other `#` text makes the `fill=` of
      `create_rectangle` and the `bg=` of `config` raise TclError. */
  predicate TkColor(s: string) {
    && |s| > 0 && s[0] == '#'
    && (forall k :: 1 <= k < |s| ==> IsTkHexDigit(s[k]))
    && (|s| == 4 || |s| == 7 || |s| == 10 || |s| == 13)
  }

  /** Tk takes `curr_color` exactly when it has 6, 9 or 12 digits, which it
      has whenever every channel fits in a byte. */
  lemma ColorTextTk(c: Rgb)
    ensures var s := ColorText(c); TkColor(s) <==> |s| == 7 || |s| == 10 || |s| == 13
    ensures c.red < 256 && c.green < 256 && c.blue < 256 ==> TkColor(ColorText(c))
  {
    var s := ColorText(c);
    ColorTextShape(c);
    forall k | 1 <= k < |s|
      ensures IsTkHexDigit(s[k])
    {
      assert s[k] == s[1..][k - 1];
    }
  }

  /** `256,0,0` is written `#1000000`, with seven digits, which Tk rejects. */
  lemma ColorTextTkRejects()
    ensures ColorText(Rgb(256, 0, 0)) == "#1000000"
    ensures !TkColor(ColorText(Rgb(256, 0, 0)))
  {
    assert Hex(256) == Hex(16) + "0" && Hex(16) == "10";
    assert Hex02(256) == "100";
    assert "#" + "100" + "00" + "00" == "#1000000";
  }

  /** `255,0,0` is shown as `#ff0000`. */
  lemma ColorTextRed()
    ensures ColorText(Rgb(255, 0, 0)) == "#ff0000"
  {
  }

  /** `10,10,10@` is shown as `#0a0a0a`. */
  lemma ColorTextPadded()
    ensures ColorText(Rgb(10, 10, 10)) == "#0a0a0a"
  {
  }

  /** Without clamping the text is ambiguous once a channel exceeds 255: two
      different colours are written the same way. */
  lemma ColorTextAmbiguous()
    ensures Rgb(0x123, 0x45, 0x67) != Rgb(0x12, 0x345, 0x67)
    ensures ColorText(Rgb(0x123, 0x45, 0x67)) == ColorText(Rgb(0x12, 0x345, 0x67)) == "#1234567"
  {
    HexSamples();
    assert "#" + "123" + "45" + "67" == "#1234567";
    assert "#" + "12" + "345" + "67" == "#1234567";
  }

  lemma HexSamples()
    ensures Hex02(0x123) == "123" && Hex02(0x345) == "345"
    ensures Hex02(0x12) == "12" && Hex02(0x45) == "45" && Hex02(0x67) == "67"
  {
    TwoDigits(1, 2);
    TwoDigits(3, 4);
    TwoDigits(4, 5);
    TwoDigits(6, 7);
    assert Hex(0x123) == "12" + "3" && Hex(0x345) == "34" + "5";
  }

  lemma TwoDigits(hi: nat, lo: nat)
    requires 0 < hi < 10 && lo < 10
    ensures Hex02(16 * hi + lo) == [HexDigit(hi), HexDigit(lo)]
  {
    assert Hex(16 * hi + lo) == [HexDigit(hi)] + [HexDigit(lo)];
  }
}
