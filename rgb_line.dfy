/** The line decoder: `RGB_PATTERN.match(line)` (bojata.py:28, used at
    bojata.py:77) and the `int` conversion of its groups (bojata.py:78-79,
    bojata.py:83).  The pattern is

        (\d+),(\d+),(\d+)(?:;(\d+))?(@)?\r?\n

    matched at the start of the line only, so whatever follows the first
    line terminator is ignored.  `\d` is taken to be the ASCII digits. */
module RgbLine {
  import opened Wrappers

  /** PRINT_FLAG (bojata.py:27). */
  const PrintFlag: char := '@'

  predicate IsDigit(c: char) {
    '0' <= c <= '9'
  }

  predicate AllDigits(s: string) {
    forall k :: 0 <= k < |s| ==> IsDigit(s[k])
  }

  /** What one `(\d+)` group can capture: one or more digits. */
  predicate IsNumeral(s: string) {
    |s| > 0 && AllDigits(s)
  }

  /** Length of the longest run of digits at the head of `s` (`\d+` is greedy). */
  function DigitSpan(s: string): (n: nat)
    ensures n <= |s| && AllDigits(s[..n])
    ensures n < |s| ==> !IsDigit(s[n])
  {
    if s == [] || !IsDigit(s[0]) then 0
    else
      var m := DigitSpan(s[1..]);
      assert s[..1 + m] == [s[0]] + s[1..][..m];
      1 + m
  }

  /** A captured group and the text after it. */
  datatype Scan = Scan(digits: string, rest: string)

  /** One greedy `(\d+)` at the head of `s`. */
  function Numeral(s: string): (r: Option<Scan>)
    ensures r.None? <==> s == [] || !IsDigit(s[0])
    ensures r.Some? ==> IsNumeral(r.value.digits) && s == r.value.digits + r.value.rest
    ensures r.Some? ==> r.value.rest == [] || !IsDigit(r.value.rest[0])
  {
    var n := DigitSpan(s);
    if n == 0 then None else Some(Scan(s[..n], s[n..]))
  }

  /** One literal character at the head of `s`. */
  function Literal(c: char, s: string): (r: Option<string>)
    ensures r.Some? <==> |s| > 0 && s[0] == c
    ensures r.Some? ==> s == [c] + r.value
  {
    if |s| > 0 && s[0] == c then Some(s[1..]) else None
  }

  /** `c?`: takes the character when it is there. */
  function Optional(c: char, s: string): (r: (bool, string))
    ensures r.0 <==> |s| > 0 && s[0] == c
    ensures s == (if r.0 then [c] else []) + r.1
  {
    if |s| > 0 && s[0] == c then (true, s[1..]) else (false, s)
  }

  /** `(?:;(\d+))?`: taken when a ';' is followed by at least one digit.  When
      it is not taken the next position still holds the ';', which nothing
      later in the pattern accepts, so this greedy choice is the only one the
      regex engine can end with. */
  function IntensityGroup(s: string): (r: (Option<string>, string))
    ensures r.0.Some? ==> IsNumeral(r.0.value)
    ensures s == (if r.0.Some? then ";" + r.0.value else "") + r.1
  {
    match Literal(';', s)
    case None => (None, s)
    case Some(t) =>
      match Numeral(t)
      case None => (None, s)
      case Some(sc) => (Some(sc.digits), sc.rest)
  }

  /** `m.groups()` of a successful match: red, green, blue, the optional
      intensity and whether the print flag group matched. */
  datatype Groups = Groups(red: string, green: string, blue: string,
                           intensity: Option<string>, printFlag: bool)

  predicate WellFormed(g: Groups) {
    && IsNumeral(g.red) && IsNumeral(g.green) && IsNumeral(g.blue)
    && (g.intensity.Some? ==> IsNumeral(g.intensity.value))
  }

  /** `(?:;(\d+))?(@)?\r?\n` after the third channel: the intensity group,
      whether the flag group matched, and the mandatory line terminator. */
  function Trailer(s: string): Option<(Option<string>, bool)>
  {
    var (intensity, t3) := IntensityGroup(s);
    var flagged :- Terminator(t3);
    Some((intensity, flagged))
  }

  /** `(@)?\r?\n`: whether the flag group matched; None when no `\n` follows. */
  function Terminator(s: string): Option<bool>
  {
    var (flagged, t4) := Optional(PrintFlag, s);
    var (_, t5) := Optional('\r', t4);
    var t6 :- Literal('\n', t5);
    Some(flagged)
  }

  /** `RGB_PATTERN.match(line)`; None when the line does not match. */
  function Match(line: string): (r: Option<Groups>)
    ensures r.Some? ==> WellFormed(r.value)
  {
    var red :- Numeral(line);
    var t1 :- Literal(',', red.rest);
    var green :- Numeral(t1);
    var t2 :- Literal(',', green.rest);
    var blue :- Numeral(t2);
    var trailer :- Trailer(blue.rest);
    assert trailer.0.Some? ==> IsNumeral(trailer.0.value);
    Some(Groups(red.digits, green.digits, blue.digits, trailer.0, trailer.1))
  }

  // ---------------------------------------------------------------------
  // The reference grammar: the text of a matching line, written out.

  /** The text the trailer groups were matched from, without the `\n`. */
  function Suffix(intensity: Option<string>, printFlag: bool, cr: bool): string {
    (if intensity.Some? then ";" + intensity.value else "")
    + (if printFlag then [PrintFlag] else "")
    + (if cr then "\r" else "")
  }

  /** Everything of a matching line up to its `\n`. */
  function Body(g: Groups, cr: bool): string {
    g.red + "," + g.green + "," + g.blue + Suffix(g.intensity, g.printFlag, cr)
  }

  /** `s` begins with `t`. */
  predicate StartsWith(s: string, t: string) {
    |t| <= |s| && s[..|t|] == t
  }

  lemma StartsWithAppend(t: string, rest: string)
    ensures StartsWith(t + rest, t)
  {
    assert (t + rest)[..|t|] == t;
  }

  /** The shortest text the pattern accepts with these groups, `\r` or not. */
  function Text(g: Groups, cr: bool): string {
    Body(g, cr) + "\n"
  }

  /** `Numeral` stops exactly where the digits stop. */
  lemma {:induction false} DigitSpanAppend(ds: string, t: string)
    requires AllDigits(ds)
    requires t == [] || !IsDigit(t[0])
    ensures DigitSpan(ds + t) == |ds|
  {
    if ds != [] {
      assert (ds + t)[1..] == ds[1..] + t;
      DigitSpanAppend(ds[1..], t);
    }
  }

  lemma NumeralAppend(ds: string, t: string)
    requires IsNumeral(ds)
    requires t == [] || !IsDigit(t[0])
    ensures Numeral(ds + t) == Some(Scan(ds, t))
  {
    DigitSpanAppend(ds, t);
    assert (ds + t)[..|ds|] == ds && (ds + t)[|ds|..] == t;
  }

  lemma TrailerComplete(intensity: Option<string>, printFlag: bool, cr: bool, rest: string)
    requires intensity.Some? ==> IsNumeral(intensity.value)
    ensures Trailer(Suffix(intensity, printFlag, cr) + "\n" + rest) == Some((intensity, printFlag))
  {
    var u := (if printFlag then [PrintFlag] else "") + (if cr then "\r" else "") + "\n" + rest;
    SuffixSplit(intensity, printFlag, cr, rest);
    TerminatorComplete(printFlag, cr, rest, u);
    IntensityStep(intensity, u);
  }

  lemma TerminatorComplete(printFlag: bool, cr: bool, rest: string, u: string)
    requires u == (if printFlag then [PrintFlag] else "") + (if cr then "\r" else "") + "\n" + rest
    ensures Terminator(u) == Some(printFlag) && u[0] != ';' && !IsDigit(u[0])
  {
    var u2 := "\n" + rest;
    var u1 := (if cr then "\r" else "") + u2;
    assert Literal('\n', u2) == Some(rest);
    if cr {
      assert u1[0] == '\r' && u1[1..] == u2;
    } else {
      assert u1 == u2;
    }
    assert Optional('\r', u1) == (cr, u2);
    if printFlag {
      assert u == [PrintFlag] + u1;
      assert u[1..] == u1;
    } else {
      assert u == u1;
    }
    assert Optional(PrintFlag, u) == (printFlag, u1);
  }

  lemma SuffixSplit(intensity: Option<string>, printFlag: bool, cr: bool, rest: string)
    ensures Suffix(intensity, printFlag, cr) + "\n" + rest
         == (if intensity.Some? then ";" + intensity.value else "")
            + ((if printFlag then [PrintFlag] else "") + (if cr then "\r" else "") + "\n" + rest)
  {
    var a, b, c := if intensity.Some? then ";" + intensity.value else "",
                   if printFlag then [PrintFlag] else "", if cr then "\r" else "";
    assert Suffix(intensity, printFlag, cr) == a + b + c;
    assert a + b + c + "\n" + rest == a + (b + c + "\n" + rest);
  }

  /** The intensity group stops before a character that cannot extend it. */
  lemma IntensityStep(intensity: Option<string>, u: string)
    requires intensity.Some? ==> IsNumeral(intensity.value)
    requires |u| > 0 && u[0] != ';' && !IsDigit(u[0])
    ensures IntensityGroup((if intensity.Some? then ";" + intensity.value else "") + u) == (intensity, u)
  {
    match intensity
    case None =>
      assert "" + u == u;
    case Some(i) =>
      assert ";" + i + u == [';'] + (i + u);
      NumeralAppend(i, u);
  }

  lemma TrailerSound(s: string) returns (cr: bool, rest: string)
    requires Trailer(s).Some?
    ensures s == Suffix(Trailer(s).value.0, Trailer(s).value.1, cr) + "\n" + rest
  {
    var i := IntensityGroup(s);
    var f := Optional(PrintFlag, i.1);
    var c := Optional('\r', f.1);
    assert Literal('\n', c.1).Some?;
    rest := Literal('\n', c.1).value;
    cr := c.0;
    assert Trailer(s) == Some((i.0, f.0));
    var a := if i.0.Some? then ";" + i.0.value else "";
    var b := if f.0 then [PrintFlag] else "";
    var r := if c.0 then "\r" else "";
    assert s == a + (b + (r + ("\n" + rest)));
    assert Suffix(i.0, f.0, c.0) == a + b + r;
    SuffixAssoc(a, b, r, rest);
  }


  lemma SuffixAssoc(a: string, b: string, c: string, t: string)
    ensures a + (b + (c + ("\n" + t))) == a + b + c + "\n" + t
  {
  }

  lemma Reassemble(line: string, red: Scan, t1: string, green: Scan, t2: string, blue: Scan,
                   intensity: Option<string>, flagged: bool) returns (cr: bool, rest: string)
    requires line == red.digits + red.rest && red.rest == "," + t1
    requires t1 == green.digits + green.rest && green.rest == "," + t2
    requires t2 == blue.digits + blue.rest && Trailer(blue.rest) == Some((intensity, flagged))
    ensures line == Text(Groups(red.digits, green.digits, blue.digits, intensity, flagged), cr) + rest
  {
    cr, rest := TrailerSound(blue.rest);
    var suffix := Suffix(intensity, flagged, cr);
    ConcatChannels(line, red.digits, t1, green.digits, t2, blue.digits, suffix, rest);
    assert Text(Groups(red.digits, green.digits, blue.digits, intensity, flagged), cr)
        == red.digits + "," + green.digits + "," + blue.digits + suffix + "\n";
  }

  lemma ConcatChannels(line: string, r: string, t1: string, g: string, t2: string, b: string,
                       suffix: string, rest: string)
    requires line == r + ("," + t1) && t1 == g + ("," + t2) && t2 == b + (suffix + "\n" + rest)
    ensures line == r + "," + g + "," + b + suffix + "\n" + rest
  {
  }



  /** Every line that starts with the text of the grammar matches with exactly
      those groups, whatever comes after the first `\n`. */
  lemma MatchComplete(g: Groups, cr: bool, rest: string)
    requires WellFormed(g)
    ensures Match(Text(g, cr) + rest) == Some(g)
  {
    var s3 := Suffix(g.intensity, g.printFlag, cr) + "\n" + rest;
    var s2 := "," + (g.blue + s3);
    var s1 := "," + (g.green + s2);
    TextSplit(g, cr, rest);
    NumeralAppend(g.red, s1);
    assert Literal(',', s1) == Some(g.green + s2);
    NumeralAppend(g.green, s2);
    assert Literal(',', s2) == Some(g.blue + s3);
    TrailerComplete(g.intensity, g.printFlag, cr, rest);
    assert s3 == [] || !IsDigit(s3[0]);
    NumeralAppend(g.blue, s3);
  }

  lemma TextSplit(g: Groups, cr: bool, rest: string)
    ensures Text(g, cr) + rest
         == g.red + ("," + (g.green + ("," + (g.blue + (Suffix(g.intensity, g.printFlag, cr) + "\n" + rest)))))
  {
    ConcatChannels(Text(g, cr) + rest, g.red, g.green + ("," + (g.blue + (Suffix(g.intensity, g.printFlag, cr) + "\n" + rest))),
                   g.green, g.blue + (Suffix(g.intensity, g.printFlag, cr) + "\n" + rest), g.blue,
                   Suffix(g.intensity, g.printFlag, cr), rest);
  }

  /** A match only ever comes from a line that starts with the text of the
      grammar for the groups it returns. */
  lemma MatchSound(line: string) returns (cr: bool, rest: string)
    requires Match(line).Some?
    ensures WellFormed(Match(line).value)
    ensures line == Text(Match(line).value, cr) + rest
  {
    var red := Numeral(line).value;
    var t1 := Literal(',', red.rest).value;
    var green := Numeral(t1).value;
    var t2 := Literal(',', green.rest).value;
    var blue := Numeral(t2).value;
    var (intensity, flagged) := Trailer(blue.rest).value;
    assert Match(line) == Some(Groups(red.digits, green.digits, blue.digits, intensity, flagged));
    cr, rest := Reassemble(line, red, t1, green, t2, blue, intensity, flagged);
  }

  /** Match accepts a line exactly when the line starts with the text of the
      grammar, and then the groups are the ones that text was written from. */
  lemma MatchIffGrammar(line: string)
    ensures Match(line).Some? <==> exists g, cr :: WellFormed(g) && StartsWith(line, Text(g, cr))
    ensures forall g, cr :: WellFormed(g) && StartsWith(line, Text(g, cr)) ==> Match(line) == Some(g)
  {
    forall g, cr | WellFormed(g) && StartsWith(line, Text(g, cr))
      ensures Match(line) == Some(g)
    {
      assert line == Text(g, cr) + line[|Text(g, cr)|..];
      MatchComplete(g, cr, line[|Text(g, cr)|..]);
    }
    if Match(line).Some? {
      var cr, rest := MatchSound(line);
      StartsWithAppend(Text(Match(line).value, cr), rest);
    }
  }

  lemma BodyHasNoNewline(g: Groups, cr: bool)
    requires WellFormed(g)
    ensures '\n' !in Body(g, cr)
  {
  }

  /** Two texts ending at the first `\n` of the same string are the same text. */
  lemma SameLine(x: string, p: string, r: string, t: string)
    requires '\n' !in x && '\n' !in p
    requires x + "\n" + t == p + "\n" + r
    ensures x == p
  {
    var w := p + "\n" + r;
    var m := if |x| < |p| then |x| else |p|;
    assert (x + "\n" + t)[m] == w[m];
    assert (x + "\n" + t)[m] == '\n' <==> m == |x|;
    assert w[m] == '\n' <==> m == |p|;
    assert x == w[..|x|];
  }

  /** Whatever follows the first `\n` never changes the outcome of the match. */
  lemma MatchIgnoresTail(pre: string, rest1: string, rest2: string)
    requires '\n' !in pre
    ensures Match(pre + "\n" + rest1) == Match(pre + "\n" + rest2)
  {
    var l1, l2 := pre + "\n" + rest1, pre + "\n" + rest2;
    if Match(l1).Some? {
      MatchAgain(pre, rest1, rest2);
    } else if Match(l2).Some? {
      MatchAgain(pre, rest2, rest1);
    }
  }

  lemma MatchAgain(pre: string, rest1: string, rest2: string)
    requires '\n' !in pre
    requires Match(pre + "\n" + rest1).Some?
    ensures Match(pre + "\n" + rest2) == Match(pre + "\n" + rest1)
  {
    var l1 := pre + "\n" + rest1;
    var g := Match(l1).value;
    var cr, rest := MatchSound(l1);
    var body := Body(g, cr);
    assert l1 == body + "\n" + rest;
    BodyHasNoNewline(g, cr);
    SameLine(body, pre, rest1, rest);
    MatchComplete(g, cr, rest2);
  }

  /** A line with no `\n` at all (such as a partial line) never matches. */
  lemma UnterminatedRejected(line: string)
    requires '\n' !in line
    ensures Match(line).None?
  {
    if Match(line).Some? {
      MatchedHasNewline(line);
    }
  }

  lemma MatchedHasNewline(line: string)
    requires Match(line).Some?
    ensures '\n' in line
  {
    var cr, rest := MatchSound(line);
    var text := Text(Match(line).value, cr);
    assert line[|text| - 1] == text[|text| - 1] == '\n';
  }

  // ---------------------------------------------------------------------
  // `int()` of the groups.

  /** The default of `sys.get_int_max_str_digits()`.  From CPython 3.11 on,
      and in the 3.8.14, 3.9.14 and 3.10.7 security releases, `int()` of a
      decimal text with more digits than this raises ValueError. */
  const IntMaxStrDigits: nat := 4300

  /** `int(ds)` returns rather than raising ValueError; leading zeros count
      as digits. */
  predicate Fits(ds: string) {
    |ds| <= IntMaxStrDigits
  }

  function DigitValue(c: char): nat
    requires IsDigit(c)
  {
    c as int - '0' as int
  }

  /** The number a string of ASCII digits denotes: what `int(ds)` returns
      when it returns. */
  function Value(ds: string): nat
    requires AllDigits(ds)
  {
    if ds == [] then 0 else 10 * Value(ds[..|ds| - 1]) + DigitValue(ds[|ds| - 1])
  }

  function DigitChar(d: nat): (c: char)
    requires d < 10
    ensures IsDigit(c) && DigitValue(c) == d
  {
    ('0' as int + d) as char
  }

  /** The decimal numeral of `n`, as `str(n)` writes it (reference for `Value`). */
  function DecimalText(n: nat): (s: string)
    ensures IsNumeral(s)
  {
    if n < 10 then [DigitChar(n)] else DecimalText(n / 10) + [DigitChar(n % 10)]
  }

  /** `int(str(n)) == n`, when `str(n)` fits the digit limit. */
  lemma {:induction false} ValueDecimalText(n: nat)
    ensures Value(DecimalText(n)) == n
  {
    if n >= 10 {
      var s := DecimalText(n);
      assert s[..|s| - 1] == DecimalText(n / 10);
      ValueDecimalText(n / 10);
    }
  }

  function Pow10(k: nat): (p: nat)
    ensures p >= 1
  {
    if k == 0 then 1 else 10 * Pow10(k - 1)
  }

  /** `str(n)` has at most `k` digits exactly when `n < 10^k`; so a sample
      fits the digit limit exactly when its values are below 10^4300. */
  lemma {:induction false} DecimalTextLength(n: nat, k: nat)
    requires k >= 1
    ensures |DecimalText(n)| <= k <==> n < Pow10(k)
  {
    if n >= 10 {
      if k == 1 {
        assert Pow10(1) == 10;
      } else {
        DecimalTextLength(n / 10, k - 1);
      }
    } else {
      assert Pow10(k) == 10 * Pow10(k - 1);
    }
  }

  /** A decoded line: the channels in the sensor's own scale, not clamped. */
  datatype RawSample = RawSample(red: nat, green: nat, blue: nat,
                                 intensity: Option<nat>, printFlag: bool)

  /** What bojata.py:77-83 make of a line: no match, a ValueError from one
      of the `int()` calls, or the integer sample. */
  datatype Decoding = NoMatch | TooManyDigits | Decoded(sample: RawSample)

  /** Every `int()` of bojata.py:79 and bojata.py:83 returns. */
  predicate GroupsFit(g: Groups) {
    && Fits(g.red) && Fits(g.green) && Fits(g.blue)
    && (g.intensity.Some? ==> Fits(g.intensity.value))
  }

  /** `r, g, b = map(int, (r, g, b))`, and `int(i)` when present; all of them
      run before `curr_color` is assigned, so which one raises does not
      matter. */
  function ToSample(g: Groups): Decoding
    requires WellFormed(g)
  {
    if !GroupsFit(g) then TooManyDigits
    else
      Decoded(RawSample(Value(g.red), Value(g.green), Value(g.blue),
                        if g.intensity.Some? then Some(Value(g.intensity.value)) else None,
                        g.printFlag))
  }

  /** The decoding of a line: the match, then the `int()` calls. */
  function Decode(line: string): Decoding
  {
    match Match(line)
    case None => NoMatch
    case Some(g) => ToSample(g)
  }

  /** The numerals the sensor writes for a sample. */
  function Numerals(s: RawSample): (g: Groups)
    ensures WellFormed(g)
  {
    Groups(DecimalText(s.red), DecimalText(s.green), DecimalText(s.blue),
           if s.intensity.Some? then Some(DecimalText(s.intensity.value)) else None,
           s.printFlag)
  }

  /** The line the sensor sends for a sample (reference for `Decode`). */
  function Format(s: RawSample, cr: bool): string
  {
    Text(Numerals(s), cr)
  }

  /** Every numeral of the sample's line is within the digit limit. */
  predicate SampleFits(s: RawSample) {
    GroupsFit(Numerals(s))
  }

  /** Round trip: every sample the sensor can send is decoded to itself, with
      or without `\r`, whatever follows the line, as long as its numerals fit
      the digit limit; a longer numeral makes `int()` raise. */
  lemma DecodeFormat(s: RawSample, cr: bool, rest: string)
    ensures Decode(Format(s, cr) + rest) == if SampleFits(s) then Decoded(s) else TooManyDigits
  {
    MatchComplete(Numerals(s), cr, rest);
    ValueDecimalText(s.red);
    ValueDecimalText(s.green);
    ValueDecimalText(s.blue);
    if s.intensity.Some? {
      ValueDecimalText(s.intensity.value);
    }
  }

  /** Decoding finds no match exactly when the line does not start with the
      grammar's text, and otherwise the text's groups decide: their values,
      or a ValueError when one of them is over the digit limit. */
  lemma DecodeIffGrammar(line: string)
    ensures Decode(line).NoMatch? <==> !exists g, cr :: WellFormed(g) && StartsWith(line, Text(g, cr))
    ensures forall g, cr :: WellFormed(g) && StartsWith(line, Text(g, cr)) ==> Decode(line) == ToSample(g)
  {
    MatchIffGrammar(line);
  }

  /** The sensor's message for pure red, with the trailing `\r\n`. */
  lemma DecodeRedLine()
    ensures Decode("255,0,0\r\n") == Decoded(RawSample(255, 0, 0, None, false))
  {
    var sample := RawSample(255, 0, 0, None, false);
    assert DecimalText(255) == "255";
    assert Format(sample, true) == "255,0,0\r\n";
    DecodeFormat(sample, true, "");
    assert Format(sample, true) + "" == "255,0,0\r\n";
  }

  /** A red channel one above a byte, with a bare `\n`: still a matching line. */
  lemma DecodeWideRedLine()
    ensures Decode("256,0,0\n") == Decoded(RawSample(256, 0, 0, None, false))
  {
    var sample := RawSample(256, 0, 0, None, false);
    assert DecimalText(256) == "256";
    assert Format(sample, false) == "256,0,0\n";
    DecodeFormat(sample, false, "");
    assert Format(sample, false) + "" == "256,0,0\n";
  }

  /** An intensity of more than 4300 digits, even all zeros, makes `int(i)`
      raise on a line that matches. */
  lemma LongIntensityRejected(digits: string)
    requires IsNumeral(digits) && !Fits(digits)
    ensures Decode("10,10,10;" + digits + "\n") == TooManyDigits
  {
    var g := Groups("10", "10", "10", Some(digits), false);
    var line := "10,10,10;" + digits + "\n";
    IntensityLine(digits);
    MatchComplete(g, false, "");
    assert Match(line) == Some(g);
    assert !GroupsFit(g);
  }

  lemma IntensityLine(digits: string)
    ensures Text(Groups("10", "10", "10", Some(digits), false), false) + "" == "10,10,10;" + digits + "\n"
  {
    var g := Groups("10", "10", "10", Some(digits), false);
    assert Suffix(g.intensity, false, false) == ";" + digits;
    assert Body(g, false) == "10,10,10" + (";" + digits);
  }
}
