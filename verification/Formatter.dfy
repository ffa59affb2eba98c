/** The text that print_number and rt_vsnprintf of rt-thread/src/kservice.c stand for, as functions. */
module FormatText {
  import opened Machine

  /** ZEROPAD, SIGN, PLUS, SPACE, LEFT and LARGE; SPECIAL has no effect in this build. */
  datatype Kind = Kind(zeropad: bool, sign: bool, plus: bool, space: bool, left: bool, large: bool)

  const PLAIN := Kind(false, false, false, false, false, false)

  const WORD: int := 0x1_0000_0000

  function ToSigned(x: int): int {
    var u := x % WORD;
    if u < 0x8000_0000 then u else u - WORD
  }

  function Repeat(c: char, n: int): (r: string)
    ensures |r| == (if n < 0 then 0 else n)
  {
    seq(if n < 0 then 0 else n, _ => c)
  }

  /** `divide` knows two radices only. */
  function Radix(base: nat): nat {
    if base == 10 then 10 else 16
  }

  function Digit(d: nat, large: bool): char
    requires d < 16
  {
    if d < 10 then '0' + d as char else if large then 'A' + (d - 10) as char else 'a' + (d - 10) as char
  }

  /** The two results of `divide`. */
  function Quotient(n: nat, radix: nat): (q: nat)
    requires 2 <= radix <= 16
    ensures q <= n && (n > 0 ==> q < n) && (q == 0 <==> n < radix)
  {
    n / radix
  }

  function Remainder(n: nat, radix: nat): (r: nat)
    requires 2 <= radix <= 16
    ensures r < radix && (n < radix ==> r == n)
  {
    n % radix
  }

  lemma DivideIdentity(n: nat, radix: nat)
    requires 2 <= radix <= 16
    ensures Quotient(n, radix) * radix + Remainder(n, radix) == n
  {
  }

  /** The digits of `n`, most significant first. */
  function Digits(n: nat, radix: nat, large: bool): (r: string)
    requires 2 <= radix <= 16
    ensures |r| > 0
  {
    if n < radix then [Digit(n, large)]
    else Digits(Quotient(n, radix), radix, large) + [Digit(Remainder(n, radix), large)]
  }

  /** The number print_number shows for the 32-bit `num`: with SIGN its absolute value, else `num` unsigned. */
  function Magnitude(num: int, sign: bool): int {
    if num >= 0 then num else if sign then -num else num + WORD
  }

  function SignText(num: int, kind: Kind): (r: string)
    ensures |r| <= 1
  {
    if !kind.sign then "" else if num < 0 then "-" else if kind.plus then "+" else if kind.space then " " else ""
  }

  /** The output of print_number. A precision of 0 suppresses the digits; a negative one means none given. */
  function NumberText(num: int, base: nat, width: int, precision: int, kind: Kind): string
    requires 0 <= Magnitude(num, kind.sign)
  {
    Layout(SignText(num, kind), Digits(Magnitude(num, kind.sign), Radix(base), kind.large), width, precision, kind)
  }

  /** Sign, leading zeros and digits, padded on the left, on the right or in between. */
  function Layout(sign: string, ds: string, width: int, precision: int, kind: Kind): string {
    var long := Max(precision, |ds|);
    var pad := width - long - |sign|;
    var number := Repeat('0', long - |ds|) + (if precision == 0 then "" else ds);
    if kind.left then sign + number + Repeat(' ', pad)
    else if kind.zeropad then sign + Repeat('0', pad) + number
    else Repeat(' ', pad) + sign + number
  }

  // ----- Reading a number back

  function DigitValue(c: char): nat {
    if '0' <= c <= '9' then (c - '0') as nat
    else if 'a' <= c <= 'f' then (c - 'a') as nat + 10
    else if 'A' <= c <= 'F' then (c - 'A') as nat + 10 else 0
  }

  /** The value of a string of digits. */
  function Value(s: string, radix: nat): nat {
    if s == "" then 0 else Value(s[..|s| - 1], radix) * radix + DigitValue(s[|s| - 1])
  }

  function SkipSpaces(s: string): string {
    if s != "" && s[0] == ' ' then SkipSpaces(s[1..]) else s
  }

  function DropSpaces(s: string): string {
    if s != "" && s[|s| - 1] == ' ' then DropSpaces(s[..|s| - 1]) else s
  }

  /** Reads a number with optional sign, between spaces. */
  function ReadNumber(s: string, radix: nat): int {
    var t := DropSpaces(SkipSpaces(s));
    if t != "" && t[0] == '-' then -(Value(t[1..], radix) as int)
    else if t != "" && t[0] == '+' then Value(t[1..], radix)
    else Value(t, radix)
  }

  lemma DigitReads(d: nat, large: bool)
    requires d < 16
    ensures DigitValue(Digit(d, large)) == d
    ensures Digit(d, large) != ' ' && Digit(d, large) != '-' && Digit(d, large) != '+'
  {
  }

  lemma ValueSnoc(s: string, c: char, radix: nat)
    ensures Value(s + [c], radix) == Value(s, radix) * radix + DigitValue(c)
  {
    assert (s + [c])[..|s|] == s;
  }

  lemma {:induction false} DigitsValue(n: nat, radix: nat, large: bool)
    requires 2 <= radix <= 16
    ensures Value(Digits(n, radix, large), radix) == n
  {
    hide Quotient, Remainder, Value, DigitValue, Digit;
    var q, d := Quotient(n, radix), Remainder(n, radix);
    DigitReads(d, large);
    DivideIdentity(n, radix);
    if n >= radix {
      DigitsValue(q, radix, large);
      ValueSnoc(Digits(q, radix, large), Digit(d, large), radix);
    } else {
      OneDigit(n, radix, large);
    }
  }

  lemma OneDigit(n: nat, radix: nat, large: bool)
    requires 2 <= radix <= 16 && n < 16
    ensures Value([Digit(n, large)], radix) == n
  {
    hide DigitValue, Digit;
    DigitReads(n, large);
    assert [Digit(n, large)][..0] == "";
  }

  lemma {:induction false} LeadingZeros(k: int, s: string, radix: nat)
    ensures Value(Repeat('0', k) + s, radix) == Value(s, radix)
    decreases |s|, if k < 0 then 0 else k
  {
    var t := Repeat('0', k) + s;
    if s != "" {
      LeadingZeros(k, s[..|s| - 1], radix);
      assert t[..|t| - 1] == Repeat('0', k) + s[..|s| - 1];
    } else if k > 0 {
      LeadingZeros(k - 1, s, radix);
      assert t[..|t| - 1] == Repeat('0', k - 1) + s;
    } else {
      assert t == "";
    }
  }

  predicate Solid(s: string) {
    s != "" && s[0] != ' ' && s[|s| - 1] != ' '
  }

  lemma {:induction false} Trim(a: int, s: string, b: int)
    requires Solid(s)
    ensures DropSpaces(SkipSpaces(Repeat(' ', a) + s + Repeat(' ', b))) == s
    decreases if a < 0 then 0 else a, if b < 0 then 0 else b
  {
    var t := Repeat(' ', a) + s + Repeat(' ', b);
    if a > 0 {
      assert t[1..] == Repeat(' ', a - 1) + s + Repeat(' ', b);
      Trim(a - 1, s, b);
    } else {
      assert t == s + Repeat(' ', b) && t[0] == s[0];
      TrimRight(s, b);
    }
  }

  lemma {:induction false} TrimRight(s: string, b: int)
    requires Solid(s)
    ensures DropSpaces(s + Repeat(' ', b)) == s
    decreases if b < 0 then 0 else b
  {
    var t := s + Repeat(' ', b);
    if b > 0 {
      assert t[..|t| - 1] == s + Repeat(' ', b - 1);
      TrimRight(s, b - 1);
    } else {
      assert t == s;
    }
  }

  lemma {:induction false} DigitsSolid(n: nat, radix: nat, large: bool)
    requires 2 <= radix <= 16
    ensures forall i :: 0 <= i < |Digits(n, radix, large)| ==>
      Digits(n, radix, large)[i] != ' ' && Digits(n, radix, large)[i] != '-' && Digits(n, radix, large)[i] != '+'
  {
    hide Quotient, Remainder, Digit;
    DigitReads(Remainder(n, radix), large);
    if n >= radix { DigitsSolid(Quotient(n, radix), radix, large); }
  }

  /** Any width, precision other than 0 and flags: the text has exactly the length the source promises. */
  lemma NumberTextLength(num: int, base: nat, width: int, precision: int, kind: Kind)
    requires 0 <= Magnitude(num, kind.sign) && precision != 0
    ensures var ds := Digits(Magnitude(num, kind.sign), Radix(base), kind.large);
            |NumberText(num, base, width, precision, kind)| == Max(width, |SignText(num, kind)| + Max(precision, |ds|))
  {
  }

  /** The text is a body without outer spaces, between spaces. */
  lemma LayoutShape(sign: string, ds: string, width: int, precision: int, kind: Kind) returns (a: int, z: int, b: int)
    requires |sign| <= 1 && precision != 0
    ensures Layout(sign, ds, width, precision, kind)
            == Repeat(' ', a) + ((if sign == " " then "" else sign) + Repeat('0', z) + ds) + Repeat(' ', b)
  {
    hide Repeat;
    var pad, zeros := width - Max(precision, |ds|) - |sign|, Max(precision, |ds|) - |ds|;
    var extra, shown := if sign == " " then 1 else 0, if sign == " " then "" else sign;
    SignSplits(sign, extra, shown);
    if kind.left {
      a, z, b := extra, zeros, pad;
      Regroup(Repeat(' ', extra), shown, Repeat('0', zeros), ds, Repeat(' ', pad));
    } else if kind.zeropad {
      a, z, b := extra, Max(pad, 0) + zeros, 0;
      ShapeZeros(extra, shown, pad, zeros, ds);
    } else {
      a, z, b := Max(pad, 0) + extra, zeros, 0;
      ShapeSpaces(pad, extra, shown, zeros, ds);
    }
  }

  lemma ShapeZeros(extra: int, shown: string, pad: int, zeros: nat, ds: string)
    ensures (Repeat(' ', extra) + shown) + Repeat('0', pad) + (Repeat('0', zeros) + ds)
            == Repeat(' ', extra) + (shown + Repeat('0', Max(pad, 0) + zeros) + ds) + Repeat(' ', 0)
  {
    RepeatJoin('0', pad, zeros);
    RegroupZeros(Repeat(' ', extra), shown, Repeat('0', pad), Repeat('0', zeros), ds);
  }

  lemma ShapeSpaces(pad: int, extra: nat, shown: string, zeros: int, ds: string)
    ensures Repeat(' ', pad) + (Repeat(' ', extra) + shown) + (Repeat('0', zeros) + ds)
            == Repeat(' ', Max(pad, 0) + extra) + (shown + Repeat('0', zeros) + ds) + Repeat(' ', 0)
  {
    RepeatJoin(' ', pad, extra);
    RegroupSpaces(Repeat(' ', pad), Repeat(' ', extra), shown, Repeat('0', zeros), ds);
  }

  lemma SignSplits(sign: string, extra: int, shown: string)
    requires |sign| <= 1 && extra == (if sign == " " then 1 else 0) && shown == (if sign == " " then "" else sign)
    ensures sign == Repeat(' ', extra) + shown
  {
  }

  lemma Regroup(a: string, b: string, c: string, d: string, e: string)
    ensures (a + b) + (c + d) + e == a + (b + c + d) + e
  {
  }

  lemma RegroupZeros(a: string, b: string, p: string, c: string, d: string)
    ensures (a + b) + p + (c + d) == a + (b + (p + c) + d) + Repeat(' ', 0)
  {
  }

  lemma RegroupSpaces(p: string, a: string, b: string, c: string, d: string)
    ensures p + (a + b) + (c + d) == (p + a) + (b + c + d) + Repeat(' ', 0)
  {
  }

  lemma RepeatJoin(c: char, m: int, n: int)
    requires 0 <= n
    ensures Repeat(c, m) + Repeat(c, n) == Repeat(c, Max(m, 0) + n)
  {
  }

  lemma BodyReadsBack(a: int, shown: string, z: int, ds: string, b: int, radix: nat)
    requires shown == "" || shown == "-" || shown == "+"
    requires ds != "" && forall i :: 0 <= i < |ds| ==> ds[i] != ' ' && ds[i] != '-' && ds[i] != '+'
    ensures ReadNumber(Repeat(' ', a) + (shown + Repeat('0', z) + ds) + Repeat(' ', b), radix)
            == if shown == "-" then -(Value(ds, radix) as int) else Value(ds, radix)
  {
    hide Value;
    var zs := Repeat('0', z);
    var body := shown + zs + ds;
    Trim(a, body, b);
    LeadingZeros(z, ds, radix);
    assert shown == "" ==> body == zs + ds;
    assert shown != "" ==> body[1..] == zs + ds;
  }

  /** Without its padding the text reads back as the number, in base 10 and in base 16. */
  lemma NumberReadsBack(num: int, base: nat, width: int, precision: int, kind: Kind)
    requires 0 <= Magnitude(num, kind.sign) && precision != 0 && (base == 10 || base == 16)
    ensures ReadNumber(NumberText(num, base, width, precision, kind), base)
            == if kind.sign then num else Magnitude(num, false)
  {
    hide Layout, Digits, ReadNumber, Value;
    var sign, mag := SignText(num, kind), Magnitude(num, kind.sign);
    var ds := Digits(mag, Radix(base), kind.large);
    var a, z, b := LayoutShape(sign, ds, width, precision, kind);
    DigitsSolid(mag, Radix(base), kind.large);
    DigitsValue(mag, Radix(base), kind.large);
    BodyReadsBack(a, if sign == " " then "" else sign, z, ds, b, base);
  }

  /** With precision 0 only the sign and the padding are left, and the padding is as if the digits were there. */
  lemma PrecisionZeroShowsNoDigits(num: int, base: nat, width: int, kind: Kind)
    requires 0 <= Magnitude(num, kind.sign)
    ensures var sign := SignText(num, kind);
            var pad := width - |Digits(Magnitude(num, kind.sign), Radix(base), kind.large)| - |sign|;
            NumberText(num, base, width, 0, kind)
            == if kind.left then sign + Repeat(' ', pad)
               else if kind.zeropad then sign + Repeat('0', pad)
               else Repeat(' ', pad) + sign
  {
  }

  /** Such a text is laid out like that of a number without digits, in a field as much narrower. */
  lemma NoDigitsLayout(sign: string, ds: string, width: int, kind: Kind)
    ensures Layout(sign, ds, width, 0, kind) == Layout(sign, "", width - |ds|, -1, kind)
  {
    assert Repeat('0', 0) + "" == "";
  }

  lemma {:induction false} Blank(n: int)
    ensures SkipSpaces(Repeat(' ', n)) == ""
    decreases if n < 0 then 0 else n
  {
    if n > 0 {
      assert Repeat(' ', n)[1..] == Repeat(' ', n - 1);
      Blank(n - 1);
    }
  }

  lemma BodyReadsZero(a: int, shown: string, z: int, b: int, radix: nat)
    requires shown == "" || shown == "-" || shown == "+"
    ensures ReadNumber(Repeat(' ', a) + (shown + Repeat('0', z) + "") + Repeat(' ', b), radix) == 0
  {
    hide Value;
    var zs := Repeat('0', z);
    var body := shown + zs + "";
    LeadingZeros(z, "", radix);
    ValueOfNothing(radix);
    assert zs + "" == zs;
    if body == "" {
      RepeatJoin(' ', a, Max(b, 0));
      assert Repeat(' ', a) + body + Repeat(' ', b) == Repeat(' ', Max(a, 0) + Max(b, 0));
      Blank(Max(a, 0) + Max(b, 0));
    } else {
      assert Solid(body);
      Trim(a, body, b);
      assert shown == "" ==> body == zs;
      assert shown != "" ==> body[1..] == zs;
    }
  }

  lemma ValueOfNothing(radix: nat)
    ensures Value("", radix) == 0
  {
  }

  lemma PrecisionZeroReadsZero(num: int, base: nat, width: int, kind: Kind)
    requires 0 <= Magnitude(num, kind.sign)
    ensures ReadNumber(NumberText(num, base, width, 0, kind), base) == 0
  {
    hide Layout, Digits, ReadNumber, Value;
    var sign := SignText(num, kind);
    var ds := Digits(Magnitude(num, kind.sign), Radix(base), kind.large);
    NoDigitsLayout(sign, ds, width, kind);
    var a, z, b := LayoutShape(sign, "", width - |ds|, -1, kind);
    BodyReadsZero(a, if sign == " " then "" else sign, z, b, base);
  }

  /** For every 32-bit number, width and flag set the text reads back as the number if and only if the precision is not
      0 or the number is. */
  lemma ReadsBackExactly(num: int, base: nat, width: int, precision: int, kind: Kind)
    requires -0x8000_0000 <= num < 0x8000_0000 && (base == 10 || base == 16)
    ensures ReadNumber(NumberText(num, base, width, precision, kind), base)
            == (if kind.sign then num else Magnitude(num, false))
            <==> precision != 0 || num == 0
  {
    if precision != 0 {
      NumberReadsBack(num, base, width, precision, kind);
    } else {
      PrecisionZeroReadsZero(num, base, width, kind);
    }
  }

  lemma {:induction false} HexReadAsOctal(n: nat, large: bool)
    ensures Value(Digits(n, 16, large), 8) <= n
    ensures n >= 16 ==> Value(Digits(n, 16, large), 8) < n
  {
    hide Quotient, Remainder, Value, DigitValue, Digit;
    var q, d := Quotient(n, 16), Remainder(n, 16);
    DigitReads(d, large);
    DivideIdentity(n, 16);
    if n >= 16 {
      HexReadAsOctal(q, large);
      ValueSnoc(Digits(q, 16, large), Digit(d, large), 8);
    } else {
      OneDigit(n, 8, large);
    }
  }

  /** `%o` prints hexadecimal digits: they are the octal ones just for numbers below 8. */
  lemma OctalExactly(n: nat, large: bool)
    ensures Digits(n, Radix(8), large) == Digits(n, 8, large) <==> n < 8
  {
    HexReadAsOctal(n, large);
    DigitsValue(n, 8, large);
  }
}

/** The text a format and its arguments stand for: the output of rt_vsnprintf into a buffer without bound. */
module FormatSpec {
  import opened FormatText

  /** One variadic argument, as a 32-bit word and, where it is a string pointer, the string (None for NULL). */
  datatype Arg = Arg(word: int, text: Text)
  datatype Text = Null | Chars(s: string)

  /** The arguments as va_arg delivers them. */
  type Args = nat -> Arg

  function At(fmt: string, i: nat): char {
    if i < |fmt| then fmt[i] else '\0'
  }

  predicate IsDigit(c: char) { '0' <= c <= '9' }

  predicate IsFlag(c: char) { c == '-' || c == '+' || c == ' ' || c == '#' || c == '0' }

  function AddFlag(kind: Kind, c: char): Kind {
    if c == '-' then kind.(left := true)
    else if c == '+' then kind.(plus := true)
    else if c == ' ' then kind.(space := true)
    else if c == '0' then kind.(zeropad := true)
    else kind
  }

  /** The flags from place `i` on, added to `kind`, and the place behind them. */
  function ReadFlags(fmt: string, i: nat, kind: Kind): (r: (Kind, nat))
    ensures i <= r.1 && (i <= |fmt| ==> r.1 <= |fmt|) && !IsFlag(At(fmt, r.1))
    decreases |fmt| - i
  {
    if IsFlag(At(fmt, i)) then ReadFlags(fmt, i + 1, AddFlag(kind, At(fmt, i))) else (kind, i)
  }

  /** skip_atoi. */
  function ReadInt(fmt: string, i: nat, value: nat): (r: (nat, nat))
    ensures i <= r.1 && (i <= |fmt| ==> r.1 <= |fmt|)
    decreases |fmt| - i
  {
    if IsDigit(At(fmt, i)) then ReadInt(fmt, i + 1, value * 10 + (At(fmt, i) - '0') as nat) else (value, i)
  }

  /** Reading on from the digits `s` gives the value of all digits up to the next character that is none. */
  lemma {:induction false} ReadIntValue(fmt: string, i: nat, s: string)
    requires i <= |fmt|
    ensures var r := ReadInt(fmt, i, Value(s, 10));
            && r.0 == Value(s + fmt[i..r.1], 10) && !IsDigit(At(fmt, r.1))
            && forall k :: i <= k < r.1 ==> IsDigit(fmt[k])
    decreases |fmt| - i
  {
    hide Value;
    if IsDigit(At(fmt, i)) {
      var c := fmt[i];
      ValueSnoc(s, c, 10);
      ReadIntValue(fmt, i + 1, s + [c]);
      var j := ReadInt(fmt, i + 1, Value(s + [c], 10)).1;
      assert s + fmt[i..j] == s + [c] + fmt[i + 1..j];
    } else {
      assert s + fmt[i..i] == s;
    }
  }

  lemma DigitRun(fmt: string, i: nat)
    requires i <= |fmt|
    ensures var r := ReadInt(fmt, i, 0);
            && r.0 == Value(fmt[i..r.1], 10) && !IsDigit(At(fmt, r.1))
            && forall k :: i <= k < r.1 ==> IsDigit(fmt[k])
  {
    hide Value;
    ValueOfNothing(10);
    ReadIntValue(fmt, i, "");
    var r := ReadInt(fmt, i, 0);
    assert "" + fmt[i..r.1] == fmt[i..r.1];
  }

  /** A conversion in progress: its flags, width, precision and qualifier, the place in the format, and the number
      of the next argument. */
  datatype Conv = Conv(kind: Kind, width: int, precision: int, qualifier: char, at: nat, arg: nat)

  function ReadWidth(fmt: string, c: Conv, args: Args): (r: Conv)
    ensures c.at <= r.at && (c.at <= |fmt| ==> r.at <= |fmt|)
  {
    if IsDigit(At(fmt, c.at)) then
      var n := ReadInt(fmt, c.at, 0);
      c.(width := n.0, at := n.1)
    else if At(fmt, c.at) == '*' then
      var w := ToSigned(args(c.arg).word);
      c.(width := if w < 0 then -w else w, kind := if w < 0 then c.kind.(left := true) else c.kind,
         at := c.at + 1, arg := c.arg + 1)
    else c
  }

  function ReadPrecision(fmt: string, c: Conv, args: Args): (r: Conv)
    ensures c.at <= r.at && (c.at <= |fmt| ==> r.at <= |fmt|)
  {
    if At(fmt, c.at) != '.' then c
    else if IsDigit(At(fmt, c.at + 1)) then
      var n := ReadInt(fmt, c.at + 1, 0);
      c.(precision := n.0, at := n.1)
    else if At(fmt, c.at + 1) == '*' then
      var p := ToSigned(args(c.arg).word);
      c.(precision := if p < 0 then 0 else p, at := c.at + 2, arg := c.arg + 1)
    else c.(precision := 0, at := c.at + 1)
  }

  function ReadQualifier(fmt: string, c: Conv): (r: Conv)
    ensures c.at <= r.at && (c.at <= |fmt| ==> r.at <= |fmt|)
  {
    if At(fmt, c.at) == 'h' || At(fmt, c.at) == 'l' then c.(qualifier := At(fmt, c.at), at := c.at + 1) else c
  }

  /** Everything between the '%' at place `i` and the conversion character. */
  function ReadConv(fmt: string, i: nat, args: Args, k: nat): (c: Conv)
    requires i < |fmt|
    ensures i < c.at <= |fmt|
  {
    var f := ReadFlags(fmt, i + 1, PLAIN);
    var c := Conv(f.0, -1, -1, '\0', f.1, k);
    ReadQualifier(fmt, ReadPrecision(fmt, ReadWidth(fmt, c, args), args))
  }

  /** A string up to its terminator. */
  function CString(s: string): string {
    if s == "" || s[0] == '\0' then "" else [s[0]] + CString(s[1..])
  }

  function CharText(c: Conv, word: int): string {
    var ch := [(word % 256) as char];
    if c.kind.left then ch + Repeat(' ', c.width - 1) else Repeat(' ', c.width - 1) + ch
  }

  function Shown(c: Conv, text: Text): string {
    var s := if text.Null? then "(NULL)" else CString(text.s);
    if c.precision > 0 && |s| > c.precision then s[..c.precision] else s
  }

  function StringText(c: Conv, text: Text): string {
    var s := Shown(c, text);
    if c.kind.left then s + Repeat(' ', c.width - |s|) else Repeat(' ', c.width - |s|) + s
  }

  /** The 32-bit number the qualifier makes of an argument. */
  function Number(c: Conv, word: int, sign: bool): (n: int)
    ensures -0x8000_0000 <= n < 0x8000_0000
  {
    if c.qualifier != 'h' then ToSigned(word)
    else
      var h := word % 0x1_0000;
      if sign && h >= 0x8000 then h - 0x1_0000 else h
  }

  /** The result of one conversion: its text, and where format and arguments go on. */
  datatype Piece = Piece(text: string, next: nat, arg: nat)

  function NumberPiece(c: Conv, base: nat, kind: Kind, args: Args): Piece {
    Piece(NumberText(Number(c, args(c.arg).word, kind.sign), base, c.width, c.precision, kind), c.at + 1, c.arg + 1)
  }

  function Convert(fmt: string, c: Conv, args: Args): (p: Piece)
    ensures c.at <= p.next
  {
    var ch := At(fmt, c.at);
    if ch == 'c' then Piece(CharText(c, args(c.arg).word), c.at + 1, c.arg + 1)
    else if ch == 's' then Piece(StringText(c, args(c.arg).text), c.at + 1, c.arg + 1)
    else if ch == 'p' then
      var width := if c.width == -1 then 8 else c.width;
      var kind := if c.width == -1 then c.kind.(zeropad := true) else c.kind;
      Piece(NumberText(ToSigned(args(c.arg).word), 16, width, c.precision, kind), c.at + 1, c.arg + 1)
    else if ch == '%' then Piece("%", c.at + 1, c.arg)
    else if ch == 'o' then NumberPiece(c, 8, c.kind, args)
    else if ch == 'X' then NumberPiece(c, 16, c.kind.(large := true), args)
    else if ch == 'x' then NumberPiece(c, 16, c.kind, args)
    else if ch == 'd' || ch == 'i' then NumberPiece(c, 10, c.kind.(sign := true), args)
    else if ch == 'u' then NumberPiece(c, 10, c.kind, args)
    else if ch != '\0' then Piece(['%', ch], c.at + 1, c.arg)
    else Piece("%", c.at, c.arg)
  }

  /** The text of the format from place `i` on, with arguments from number `k` on. */
  function FormatFrom(fmt: string, i: nat, args: Args, k: nat): string
    decreases |fmt| - i
  {
    if At(fmt, i) == '\0' then ""
    else if fmt[i] != '%' then [fmt[i]] + FormatFrom(fmt, i + 1, args, k)
    else
      var p := Convert(fmt, ReadConv(fmt, i, args, k), args);
      p.text + FormatFrom(fmt, p.next, args, p.arg)
  }
}

/** print_number and rt_vsnprintf, writing in place and never past the end of the buffer. */
module Formatter {
  import opened Machine
  import opened FormatText
  import opened FormatSpec

  /** The buffer with the moving pointer `str`; `out` is all that was put out, stored or not. */
  class Sink {
    const buf: array<char>
    const end: nat
    var str: nat
    ghost var out: string
    ghost const before: string

    ghost predicate Valid()
      reads this, buf
    {
      && end <= buf.Length == |before| && |out| == str
      && forall k :: 0 <= k < buf.Length ==> buf[k] == if k < str && k < end then out[k] else before[k]
    }

    constructor (b: array<char>, size: nat)
      requires size <= b.Length
      ensures Valid() && buf == b && end == size && str == 0 && before == b[..]
    {
      buf, end, str, out, before := b, size, 0, "", b[..];
    }

    /** `if (str < end) *str = c; ++ str;` */
    method Put(c: char)
      requires Valid()
      modifies this, buf
      ensures Valid() && out == old(out) + [c]
    {
      if str < end {
        buf[str] := c;
      }
      str := str + 1;
      out := out + [c];
    }

    /** `while (n-- > 0) put c`; the count that is left is below 0. */
    method Pad(c: char, n: int) returns (rest: int)
      requires Valid()
      modifies this, buf
      ensures Valid() && out == old(out) + Repeat(c, n) && rest == if n > 0 then -1 else n - 1
    {
      var k := 0;
      while k < n
        invariant Valid() && 0 <= k && (k > n ==> k == 0) && out == old(out) + Repeat(c, k)
      {
        Put(c);
        k := k + 1;
        assert Repeat(c, k) == Repeat(c, k - 1) + [c];
      }
      assert k > n ==> Repeat(c, n) == Repeat(c, 0);
      rest := if n > 0 then -1 else n - 1;
    }

    method PutAll(s: string)
      requires Valid()
      modifies this, buf
      ensures Valid() && out == old(out) + s
    {
      var i := 0;
      while i < |s|
        invariant Valid() && 0 <= i <= |s| && out == old(out) + s[..i]
      {
        Put(s[i]);
        i := i + 1;
        assert s[..i] == s[..i - 1] + [s[i - 1]];
      }
      assert s[..i] == s;
    }
  }

  function Reversed(s: string): (r: string)
    ensures |r| == |s|
  {
    if s == "" then "" else Reversed(s[1..]) + [s[0]]
  }

  lemma {:induction false} ReversedSnoc(s: string, c: char)
    ensures Reversed(s + [c]) == [c] + Reversed(s)
  {
    if s == "" {
      assert s + [c] == [c] && [c][1..] == "";
    } else {
      assert (s + [c])[1..] == s[1..] + [c];
      ReversedSnoc(s[1..], c);
    }
  }

  function Pow10(k: nat): nat {
    if k == 0 then 1 else 10 * Pow10(k - 1)
  }

  /** A number below 10 to the `k` has at most `k` digits. */
  lemma {:induction false} DigitsBound(n: nat, radix: nat, large: bool, k: nat)
    requires 10 <= radix <= 16 && 0 < k && n < Pow10(k)
    ensures |Digits(n, radix, large)| <= k
  {
    hide Quotient, Remainder;
    assert Pow10(1) == 10;
    var q := Quotient(n, radix);
    if n >= radix {
      DivideIdentity(n, radix);
      assert 10 * q <= q * radix;
      DigitsBound(q, radix, large, k - 1);
    }
  }

  lemma WordDigits(n: nat, radix: nat, large: bool)
    requires 10 <= radix <= 16 && n < WORD
    ensures |Digits(n, radix, large)| <= 10
  {
    assert Pow10(2) == 100 && Pow10(4) == 100 * Pow10(2) == 10_000;
    assert Pow10(6) == 100 * Pow10(4) && Pow10(8) == 100 * Pow10(6) && Pow10(10) == 100 * Pow10(8);
    DigitsBound(n, radix, large, 10);
  }

  lemma ZeroDigit(large: bool)
    ensures Digit(0, large) == '0'
  {
  }

  /** The division loop of print_number: the digits of `num`, least significant first, in `tmp`. */
  method SplitDigits(num: nat, base: nat, large: bool, tmp: array<char>) returns (i: nat)
    requires num < WORD && tmp.Length == 16
    modifies tmp
    ensures 0 < i <= 10 && Reversed(tmp[..i]) == Digits(num, Radix(base), large)
  {
    hide Quotient, Remainder, Digit;
    var radix := Radix(base);
    ZeroDigit(large);
    WordDigits(num, radix, large);
    i := 0;
    if num == 0 {
      tmp[0] := '0';
      i := 1;
      ReversedSnoc("", '0');
      assert tmp[..1] == "" + ['0'];
      return;
    }
    var n := num;
    while n != 0
      invariant 0 <= n < WORD && i <= 10
      invariant Digits(num, radix, large) == (if n == 0 then "" else Digits(n, radix, large)) + Reversed(tmp[..i])
      invariant n == 0 ==> i > 0
      decreases n
    {
      ghost var low := tmp[..i];
      assert i < 10 by { assert |Digits(n, radix, large)| > 0; }
      tmp[i] := Digit(Remainder(n, radix), large);
      assert tmp[..i + 1] == low + [tmp[i]];
      ReversedSnoc(low, tmp[i]);
      n := Quotient(n, radix);
      i := i + 1;
    }
  }

  /** What comes before the zeros and digits: left padding and the sign. */
  function Head(sign: string, pad: int, kind: Kind): string {
    if kind.left then sign else if kind.zeropad then sign + Repeat('0', pad) else Repeat(' ', pad) + sign
  }

  lemma LayoutPieces(sign: string, ds: string, width: int, precision: int, kind: Kind)
    ensures var long := Max(precision, |ds|); var pad := width - long - |sign|;
            Layout(sign, ds, width, precision, kind)
            == Head(sign, pad, kind) + (Repeat('0', long - |ds|) + (if precision == 0 then "" else ds))
               + (if kind.left then Repeat(' ', pad) else "")
  {
    hide Repeat;
  }

  /** print_number up to the digits; `size` is the padding that is left, below 0 unless LEFT is set. */
  method PrintHead(sink: Sink, sign: string, room: int, kind: Kind) returns (size: int)
    requires sink.Valid() && |sign| <= 1
    modifies sink, sink.buf
    ensures sink.Valid() && sink.out == old(sink.out) + Head(sign, room - |sign|, kind)
    ensures if kind.left then size == room - |sign| else size < 0
  {
    hide Repeat;
    ghost var was, pad := sink.out, room - |sign|;
    size := room;
    if !kind.zeropad && !kind.left {
      if sign != "" && size > 0 {
        size := size - 1;
      }
      RepeatNone(' ', size, pad);
      size := sink.Pad(' ', size);
    }
    if sign != "" {
      sink.Put(sign[0]);
      size := size - 1;
    }
    assert sign == if sign != "" then [sign[0]] else "";
    if !kind.left {
      var c := if kind.zeropad then '0' else ' ';
      RepeatNone(c, size, 0);
      size := sink.Pad(c, size);
    }
    HeadJoins(was, sign, Repeat(' ', pad), Repeat('0', pad));
  }

  lemma HeadJoins(s: string, sign: string, a: string, b: string)
    ensures (s + a) + sign + "" == s + (a + sign) && s + sign + b == s + (sign + b) && s + "" == s
    ensures (s + a) + "" == s + (a + "") && s + b == s + ("" + b)
  {
  }

  /** print_number. */
  method PrintNumber(sink: Sink, num: int, base: nat, s: int, precision: int, kind: Kind)
    requires sink.Valid() && -0x8000_0000 <= num < 0x8000_0000
    modifies sink, sink.buf
    ensures sink.Valid() && sink.out == old(sink.out) + NumberText(num, base, s, precision, kind)
  {
    hide Digits, Repeat, Layout, Head, Sink.Valid, SignText, Reversed;
    ghost var was := sink.out;
    var tmp := new char[16];
    var mag, sign := Magnitude(num, kind.sign), SignText(num, kind);
    var i := SplitDigits(mag, base, kind.large, tmp);
    ghost var ds := Digits(mag, Radix(base), kind.large);
    var long := if i > precision then i else precision;
    var size := PrintHead(sink, sign, s - long, kind);
    var _ := sink.Pad('0', long - i);
    if precision != 0 {
      PutReversed(sink, tmp, i);
    }
    RepeatNone(' ', size, 0);
    var _ := sink.Pad(' ', size);
    LayoutPieces(sign, ds, s, precision, kind);
    NumberJoins(was, Head(sign, s - long - |sign|, kind), Repeat('0', long - i), ds, Repeat(' ', size));
  }

  lemma NumberJoins(s: string, h: string, z: string, d: string, p: string)
    ensures s + h + z + d + p == s + (h + (z + d) + p)
    ensures s + h + z + p == s + (h + (z + "") + p)
  {
  }

  /** Padding of no length is all the same. */
  lemma RepeatNone(c: char, m: int, n: int)
    ensures m <= 0 && n <= 0 ==> Repeat(c, m) == Repeat(c, n) == ""
  {
  }

  /** The loop that puts the digits out of the scratch buffer, last first. */
  method PutReversed(sink: Sink, tmp: array<char>, count: nat)
    requires sink.Valid() && count <= tmp.Length && tmp != sink.buf
    modifies sink, sink.buf
    ensures sink.Valid() && sink.out == old(sink.out) + Reversed(tmp[..count])
  {
    hide Sink.Valid;
    ghost var was, text := sink.out, tmp[..];
    var i := count as int;
    while i > 0
      invariant sink.Valid() && 0 <= i <= count && tmp[..] == text
      invariant sink.out + Reversed(text[..i]) == was + Reversed(text[..count])
    {
      i := i - 1;
      assert text[..i + 1] == text[..i] + [text[i]];
      ReversedSnoc(text[..i], text[i]);
      ghost var now := sink.out;
      assert now + ([text[i]] + Reversed(text[..i])) == (now + [text[i]]) + Reversed(text[..i]);
      sink.Put(tmp[i]);
    }
    assert text[..0] == "" && tmp[..count] == text[..count];
  }

  /** skip_atoi: the value of the longest run of digits at place `i`. */
  method SkipAtoi(fmt: string, i: nat) returns (n: nat, j: nat)
    requires i <= |fmt|
    ensures (n, j) == ReadInt(fmt, i, 0) && j <= |fmt|
    ensures n == Value(fmt[i..j], 10) && !IsDigit(At(fmt, j)) && forall k :: i <= k < j ==> IsDigit(fmt[k])
  {
    hide Value;
    DigitRun(fmt, i);
    n, j := 0, i;
    while IsDigit(At(fmt, j))
      invariant ReadInt(fmt, j, n) == ReadInt(fmt, i, 0)
      decreases |fmt| - j
    {
      n := n * 10 + (At(fmt, j) - '0') as nat;
      j := j + 1;
    }
  }

  /** The flag loop behind the '%' at place `i`. */
  method SkipFlags(fmt: string, i: nat) returns (kind: Kind, j: nat)
    ensures (kind, j) == ReadFlags(fmt, i + 1, PLAIN)
  {
    kind, j := PLAIN, i + 1;
    while IsFlag(At(fmt, j))
      invariant ReadFlags(fmt, j, kind) == ReadFlags(fmt, i + 1, PLAIN)
      decreases |fmt| - j
    {
      kind := AddFlag(kind, At(fmt, j));
      j := j + 1;
    }
  }

  /** The field width: digits, or the next argument. */
  method ScanWidth(fmt: string, c: Conv, args: Args) returns (r: Conv)
    requires c.at <= |fmt|
    ensures r == ReadWidth(fmt, c, args)
  {
    hide ReadInt, Value;
    r := c;
    if IsDigit(At(fmt, r.at)) {
      var width, at := SkipAtoi(fmt, r.at);
      r := r.(width := width, at := at);
    } else if At(fmt, r.at) == '*' {
      r := r.(width := ToSigned(args(r.arg).word), at := r.at + 1, arg := r.arg + 1);
      if r.width < 0 {
        r := r.(width := -r.width, kind := r.kind.(left := true));
      }
    }
  }

  /** The precision, behind a '.': digits, or the next argument, or nothing for 0. */
  method ScanPrecision(fmt: string, c: Conv, args: Args) returns (r: Conv)
    requires c.at <= |fmt| && c.precision < 0
    ensures r == ReadPrecision(fmt, c, args)
  {
    hide ReadInt, Value;
    r := c;
    if At(fmt, r.at) == '.' {
      r := r.(at := r.at + 1);
      if IsDigit(At(fmt, r.at)) {
        var precision, at := SkipAtoi(fmt, r.at);
        r := r.(precision := precision, at := at);
      } else if At(fmt, r.at) == '*' {
        r := r.(precision := ToSigned(args(r.arg).word), at := r.at + 1, arg := r.arg + 1);
      }
      if r.precision < 0 {
        r := r.(precision := 0);
      }
    }
  }

  /** rt_vsnprintf between a '%' and its conversion character. */
  method ScanConversion(fmt: string, i: nat, args: Args, k: nat) returns (c: Conv)
    requires i < |fmt|
    ensures c == ReadConv(fmt, i, args, k)
  {
    hide ReadFlags, ReadInt;
    var kind, at := SkipFlags(fmt, i);
    c := Conv(kind, -1, -1, '\0', at, k);
    c := ScanWidth(fmt, c, args);
    c := ScanPrecision(fmt, c, args);
    if At(fmt, c.at) == 'h' || At(fmt, c.at) == 'l' {
      c := c.(qualifier := At(fmt, c.at), at := c.at + 1);
    }
  }

  /** The 'c' conversion. */
  method PrintChar(sink: Sink, c: Conv, word: int)
    requires sink.Valid()
    modifies sink, sink.buf
    ensures sink.Valid() && sink.out == old(sink.out) + CharText(c, word)
  {
    hide Repeat, Sink.Valid;
    ghost var was := sink.out;
    var width := c.width - 1;
    var ch := (word % 256) as char;
    if !c.kind.left {
      width := sink.Pad(' ', width);
    }
    sink.Put(ch);
    RepeatNone(' ', width, 0);
    var _ := sink.Pad(' ', width);
    PadJoins(was, [ch], Repeat(' ', c.width - 1));
  }

  /** The 's' conversion. */
  method PrintString(sink: Sink, c: Conv, text: Text)
    requires sink.Valid()
    modifies sink, sink.buf
    ensures sink.Valid() && sink.out == old(sink.out) + StringText(c, text)
  {
    hide Repeat, Sink.Valid, CString;
    ghost var was := sink.out;
    var s := if text.Null? then "(NULL)" else CString(text.s);
    var len := |s|;
    if c.precision > 0 && len > c.precision {
      len := c.precision;
    }
    assert s[..len] == Shown(c, text) by { assert s[..|s|] == s; }
    var room := c.width - len;
    if !c.kind.left {
      room := sink.Pad(' ', room);
    }
    sink.PutAll(s[..len]);
    RepeatNone(' ', room, 0);
    var _ := sink.Pad(' ', room);
    PadJoins(was, s[..len], Repeat(' ', c.width - len));
  }

  lemma PadJoins(s: string, t: string, p: string)
    ensures s + p + t + "" == s + (p + t) && s + t + p == s + (t + p)
  {
  }

  /** The switch of rt_vsnprintf on the conversion character. */
  method PrintConversion(sink: Sink, fmt: string, c: Conv, args: Args) returns (next: nat, arg: nat)
    requires sink.Valid() && c.at <= |fmt|
    modifies sink, sink.buf
    ensures sink.Valid()
    ensures var p := Convert(fmt, c, args); sink.out == old(sink.out) + p.text && next == p.next && arg == p.arg
  {
    hide NumberText, CharText, StringText, Sink.Valid;
    var ch := At(fmt, c.at);
    next, arg := c.at + 1, c.arg;
    if ch == 'c' {
      PrintChar(sink, c, args(arg).word);
      arg := arg + 1;
    } else if ch == 's' {
      PrintString(sink, c, args(arg).text);
      arg := arg + 1;
    } else if ch == 'p' {
      var width, kind := c.width, c.kind;
      if width == -1 {
        width, kind := 8, kind.(zeropad := true);
      }
      PrintNumber(sink, ToSigned(args(arg).word), 16, width, c.precision, kind);
      arg := arg + 1;
    } else if ch == '%' {
      sink.Put('%');
    } else if ch == 'o' || ch == 'X' || ch == 'x' || ch == 'd' || ch == 'i' || ch == 'u' {
      var base, kind := 10, c.kind;
      if ch == 'o' {
        base := 8;
      } else if ch == 'X' {
        base, kind := 16, kind.(large := true);
      } else if ch == 'x' {
        base := 16;
      } else if ch != 'u' {
        kind := kind.(sign := true);
      }
      PrintNumber(sink, Number(c, args(arg).word, kind.sign), base, c.width, c.precision, kind);
      arg := arg + 1;
    } else {
      sink.Put('%');
      if ch != '\0' {
        sink.Put(ch);
      } else {
        next := c.at;
      }
    }
  }

  /** What a buffer of `size` cells holds after `text` was printed into it over `before`. */
  function Stored(text: string, size: nat, before: string): string
    requires size <= |before|
  {
    if size == 0 then before
    else if |text| < size then text + ['\0'] + before[|text| + 1..]
    else text[..size - 1] + ['\0'] + before[size..]
  }

  lemma {:induction false} CStringEnds(s: string, rest: string)
    requires '\0' !in s
    ensures CString(s + ['\0'] + rest) == s
  {
    var t := s + ['\0'] + rest;
    if s != "" {
      assert t[0] == s[0] && t[1..] == s[1..] + ['\0'] + rest;
      CStringEnds(s[1..], rest);
    }
  }

  /** Read back as a C string, the buffer holds as much of the text as leaves room for the terminator. */
  lemma StoredReadsBack(text: string, size: nat, before: string)
    requires 0 < size <= |before| && '\0' !in text
    ensures CString(Stored(text, size, before)) == text[..if |text| < size then |text| else size - 1]
  {
    var n := if |text| < size then |text| else size - 1;
    assert forall c :: c in text[..n] ==> c in text;
    assert |text| < size ==> text[..n] == text;
    CStringEnds(text[..n], before[n + 1..]);
  }

  /** A format without conversions stands for itself. */
  lemma {:induction false} PlainFormat(fmt: string, i: nat, args: Args, k: nat)
    requires i <= |fmt| && '%' !in fmt && '\0' !in fmt
    ensures FormatFrom(fmt, i, args, k) == fmt[i..]
    decreases |fmt| - i
  {
    if i < |fmt| {
      PlainFormat(fmt, i + 1, args, k);
      assert fmt[i] in fmt && fmt[i..] == [fmt[i]] + fmt[i + 1..];
    }
  }

  /** rt_vsnprintf: the buffer gets the longest prefix of the text that fits with its terminator, cells at and past
      `size` keep what they held, and the result is the length of the whole text. */
  method Vsnprintf(buf: array<char>, size: nat, fmt: string, args: Args) returns (n: nat)
    requires size <= buf.Length
    modifies buf
    ensures n == |FormatFrom(fmt, 0, args, 0)|
    ensures buf[..] == Stored(FormatFrom(fmt, 0, args, 0), size, old(buf[..]))
  {
    hide Sink.Valid, Convert, ReadConv;
    var sink := new Sink(buf, size);
    ghost var text := FormatFrom(fmt, 0, args, 0);
    var i, k := 0, 0;
    while At(fmt, i) != '\0'
      invariant sink.Valid() && 0 <= i && 0 <= k
      invariant sink.out + FormatFrom(fmt, i, args, k) == text
      decreases |fmt| - i
    {
      ghost var was := sink.out;
      if fmt[i] != '%' {
        Reassoc(was, [fmt[i]], FormatFrom(fmt, i + 1, args, k));
        sink.Put(fmt[i]);
        i := i + 1;
      } else {
        var c := ScanConversion(fmt, i, args, k);
        ghost var p := Convert(fmt, c, args);
        Reassoc(was, p.text, FormatFrom(fmt, p.next, args, p.arg));
        i, k := PrintConversion(sink, fmt, c, args);
      }
    }
    assert sink.out == text;
    Terminate(sink);
    n := sink.str;
  }

  lemma Reassoc(a: string, b: string, c: string)
    ensures a + (b + c) == (a + b) + c
  {
  }

  /** The terminator, in the last cell when the text does not fit. */
  method Terminate(sink: Sink)
    requires sink.Valid()
    modifies sink.buf
    ensures sink.str == |sink.out|
    ensures sink.buf[..] == Stored(sink.out, sink.end, sink.before)
  {
    if sink.end > 0 {
      if sink.str < sink.end {
        sink.buf[sink.str] := '\0';
      } else {
        sink.buf[sink.end - 1] := '\0';
      }
    }
  }
}
