/** What rt_vsnprintf of rt-thread/src/kservice.c prints for a conversion, said of the conversion as it is written in
    the format, of its arguments and of the text alone. */
module FormatLaws {
  import opened Machine
  import opened FormatText
  import opened FormatSpec

  // ----- Conversions as they are written

  /** A width or a precision: none, a bare '.', a number, or '*' for the next argument. */
  datatype Field = Absent | Bare | Given(n: nat) | Star

  datatype Spec = Spec(flags: string, width: Field, precision: Field, qualifier: string, conversion: char)

  /** A character that is no part of what may stand before a conversion character. */
  predicate Plain(c: char) { !IsDigit(c) && !IsFlag(c) && c != '*' && c != '.' }

  predicate Conversion(c: char) { Plain(c) && c != 'h' && c != 'l' && c != '\0' }

  /** A width of 0 cannot be written: its digit would be a flag. */
  predicate WellFormed(sp: Spec) {
    && (forall j :: 0 <= j < |sp.flags| ==> IsFlag(sp.flags[j]))
    && !sp.width.Bare? && (sp.width.Given? ==> sp.width.n > 0)
    && (sp.qualifier == "" || sp.qualifier == "h" || sp.qualifier == "l") && Conversion(sp.conversion)
  }

  function WidthText(f: Field): string {
    match f
    case Given(n) => Digits(n, 10, false)
    case Star => "*"
    case _ => ""
  }

  function PrecisionText(f: Field): string {
    match f
    case Absent => ""
    case Bare => "."
    case Given(n) => "." + Digits(n, 10, false)
    case Star => ".*"
  }

  /** The conversion as it stands in a format. */
  function Render(sp: Spec): (r: string)
    ensures |r| == 2 + |sp.flags| + |WidthText(sp.width)| + |PrecisionText(sp.precision)| + |sp.qualifier|
  {
    "%" + sp.flags + WidthText(sp.width) + PrecisionText(sp.precision) + sp.qualifier + [sp.conversion]
  }

  /** `sp` stands in `fmt` at place `i`. */
  predicate StandsAt(fmt: string, i: nat, sp: Spec) {
    i + |Render(sp)| <= |fmt| && fmt[i..i + |Render(sp)|] == Render(sp)
  }

  // ----- What it says

  /** The argument the conversion prints, behind those for '*'. */
  function ArgOf(sp: Spec, k: nat): nat {
    k + (if sp.width.Star? then 1 else 0) + (if sp.precision.Star? then 1 else 0)
  }

  function WidthOf(sp: Spec, args: Args, k: nat): int {
    match sp.width
    case Given(n) => n
    case Star => var w := ToSigned(args(k).word); if w < 0 then -w else w
    case _ => -1
  }

  /** -1 without a precision; a bare '.' and a negative argument are 0. */
  function PrecisionOf(sp: Spec, args: Args, k: nat): int {
    match sp.precision
    case Absent => -1
    case Bare => 0
    case Given(n) => n
    case Star => Max(0, ToSigned(args(if sp.width.Star? then k + 1 else k).word))
  }

  /** The text goes to the left: by a '-', or by a negative argument for the width. */
  predicate LeftOf(sp: Spec, args: Args, k: nat) {
    '-' in sp.flags || (sp.width.Star? && ToSigned(args(k).word) < 0)
  }

  /** ToSigned is the number of 32 bits with sign that agrees with the word. */
  lemma ToSignedExactly(word: int, v: int)
    requires -0x8000_0000 <= v < 0x8000_0000 && (v - word) % 0x1_0000_0000 == 0
    ensures ToSigned(word) == v
  {
    var q := (v - word) / 0x1_0000_0000;
    assert word == v - q * 0x1_0000_0000;
  }

  // ----- Reading it back out of the format

  /** `kind` with the flags in `flags`, whatever their order. */
  function WithFlags(kind: Kind, flags: string): Kind {
    kind.(left := kind.left || '-' in flags, plus := kind.plus || '+' in flags, space := kind.space || ' ' in flags,
          zeropad := kind.zeropad || '0' in flags)
  }

  lemma WithFlagsCons(kind: Kind, flags: string)
    requires flags != "" && IsFlag(flags[0])
    ensures WithFlags(AddFlag(kind, flags[0]), flags[1..]) == WithFlags(kind, flags)
  {
    assert flags == [flags[0]] + flags[1..];
  }

  lemma {:induction false} FlagsRead(fmt: string, i: nat, flags: string, kind: Kind)
    requires i + |flags| <= |fmt| && fmt[i..i + |flags|] == flags && !IsFlag(At(fmt, i + |flags|))
    requires forall j :: 0 <= j < |flags| ==> IsFlag(flags[j])
    ensures ReadFlags(fmt, i, kind) == (WithFlags(kind, flags), i + |flags|)
    decreases |flags|
  {
    if flags != "" {
      assert fmt[i] == fmt[i..i + |flags|][0] == flags[0];
      assert fmt[i + 1..i + |flags|] == fmt[i..i + |flags|][1..];
      WithFlagsCons(kind, flags);
      FlagsRead(fmt, i + 1, flags[1..], AddFlag(kind, flags[0]));
    }
  }

  lemma {:induction false} RunEnds(fmt: string, i: nat, j: nat, v: nat)
    requires i <= j <= |fmt| && !IsDigit(At(fmt, j)) && forall k :: i <= k < j ==> IsDigit(fmt[k])
    ensures ReadInt(fmt, i, v).1 == j
    decreases j - i
  {
    if i < j { RunEnds(fmt, i + 1, j, v * 10 + (fmt[i] - '0') as nat); }
  }

  lemma DecimalDigit(d: nat)
    requires d < 10
    ensures IsDigit(Digit(d, false)) && (Digit(d, false) == '0' <==> d == 0)
  {
  }

  lemma {:induction false} DecimalDigits(n: nat)
    ensures forall j :: 0 <= j < |Digits(n, 10, false)| ==> IsDigit(Digits(n, 10, false)[j])
    ensures n > 0 ==> Digits(n, 10, false)[0] != '0'
  {
    hide Digit, IsDigit;
    DecimalDigit(Remainder(n, 10));
    if n >= 10 { DecimalDigits(Quotient(n, 10)); }
  }

  lemma NumberRead(fmt: string, i: nat, n: nat)
    requires var ds := Digits(n, 10, false);
             i + |ds| <= |fmt| && fmt[i..i + |ds|] == ds && !IsDigit(At(fmt, i + |ds|))
    ensures ReadInt(fmt, i, 0) == (n, i + |Digits(n, 10, false)|) && IsDigit(At(fmt, i))
  {
    hide ReadInt, Digits, Value, IsDigit;
    var ds := Digits(n, 10, false);
    DecimalDigits(n);
    forall k | i <= k < i + |ds| ensures IsDigit(fmt[k]) { assert fmt[k] == fmt[i..i + |ds|][k - i]; }
    RunEnds(fmt, i, i + |ds|, 0);
    DigitRun(fmt, i);
    DigitsValue(n, 10, false);
  }

  lemma Middle(x: string, y: string, z: string)
    ensures (x + y + z)[|x|..|x| + |y|] == y
  {
  }

  /** Five parts behind each other. */
  lemma Sliced(f: string, w: string, p: string, q: string, e: char)
    ensures var r := "%" + f + w + p + q + [e]; var a := 1 + |f|; var b := a + |w|; var c := b + |p|; var d := c + |q|;
            && |r| == d + 1 && r[0] == '%' && r[d] == e
            && r[1..a] == f && r[a..b] == w && r[b..c] == p && r[c..d] == q
  {
    var r := "%" + f + w + p + q + [e];
    assert r == "%" + f + (w + p + q + [e]);
    Middle("%", f, w + p + q + [e]);
    assert r == ("%" + f) + w + (p + q + [e]);
    Middle("%" + f, w, p + q + [e]);
    assert r == ("%" + f + w) + p + (q + [e]);
    Middle("%" + f + w, p, q + [e]);
    Middle("%" + f + w + p, q, [e]);
  }

  /** The parts of a rendered conversion, in their places. */
  lemma Parts(fmt: string, i: nat, sp: Spec)
    requires StandsAt(fmt, i, sp)
    ensures var m := MarksOf(i, sp);
            && m.conversion + 1 == i + |Render(sp)| && m.conversion < |fmt| && fmt[i] == '%'
            && fmt[m.conversion] == sp.conversion
            && fmt[i + 1..m.width] == sp.flags && fmt[m.width..m.precision] == WidthText(sp.width)
            && fmt[m.precision..m.qualifier] == PrecisionText(sp.precision)
            && fmt[m.qualifier..m.conversion] == sp.qualifier
  {
    hide WidthText, PrecisionText, Digits;
    var r, m := Render(sp), MarksOf(i, sp);
    Sliced(sp.flags, WidthText(sp.width), PrecisionText(sp.precision), sp.qualifier, sp.conversion);
    Shifted(fmt, r, i, 1, m.width - i);
    Shifted(fmt, r, i, m.width - i, m.precision - i);
    Shifted(fmt, r, i, m.precision - i, m.qualifier - i);
    Shifted(fmt, r, i, m.qualifier - i, m.conversion - i);
    assert fmt[i] == fmt[i..i + |r|][0] && fmt[m.conversion] == fmt[i..i + |r|][m.conversion - i];
  }

  lemma Shifted(fmt: string, r: string, i: nat, a: nat, b: nat)
    requires i + |r| <= |fmt| && fmt[i..i + |r|] == r && a <= b <= |r|
    ensures fmt[i + a..i + b] == r[a..b]
  {
    forall j | a <= j < b ensures fmt[i + j] == r[j] { assert fmt[i + j] == fmt[i..i + |r|][j]; }
  }

  /** The first character of a part, or of what follows if the part is empty. */
  lemma FirstOf(fmt: string, a: nat, b: nat, part: string)
    requires a <= b <= |fmt| && fmt[a..b] == part
    ensures |part| == b - a && (part != "" ==> At(fmt, a) == part[0])
  {
    if part != "" { assert fmt[a] == fmt[a..b][0]; }
  }

  /** The number in a precision stands behind its '.'. */
  lemma BehindPoint(fmt: string, b: nat, c: nat, ds: string)
    requires b <= c <= |fmt| && fmt[b..c] == "." + ds
    ensures c == b + 1 + |ds| && fmt[b] == '.' && fmt[b + 1..c] == ds
  {
    assert fmt[b] == fmt[b..c][0];
    assert fmt[b + 1..c] == fmt[b..c][1..];
  }

  lemma WidthRead(fmt: string, c: Conv, f: Field, args: Args)
    requires !f.Bare? && c.at + |WidthText(f)| <= |fmt| && fmt[c.at..c.at + |WidthText(f)|] == WidthText(f)
    requires var e := At(fmt, c.at + |WidthText(f)|); !IsDigit(e) && e != '*' && c.width == -1
    ensures var w := ToSigned(args(c.arg).word);
            ReadWidth(fmt, c, args)
            == match f
               case Given(n) => c.(width := n, at := c.at + |WidthText(f)|)
               case Star => c.(width := if w < 0 then -w else w, at := c.at + 1, arg := c.arg + 1,
                               kind := if w < 0 then c.kind.(left := true) else c.kind)
               case _ => c
  {
    hide ReadInt, Digits;
    FirstOf(fmt, c.at, c.at + |WidthText(f)|, WidthText(f));
    if f.Given? { NumberRead(fmt, c.at, f.n); }
  }

  lemma PrecisionRead(fmt: string, c: Conv, f: Field, args: Args)
    requires c.at + |PrecisionText(f)| <= |fmt| && fmt[c.at..c.at + |PrecisionText(f)|] == PrecisionText(f)
    requires Plain(At(fmt, c.at + |PrecisionText(f)|)) && c.precision == -1
    ensures var p := ToSigned(args(c.arg).word);
            ReadPrecision(fmt, c, args)
            == match f
               case Absent => c
               case Bare => c.(precision := 0, at := c.at + 1)
               case Given(n) => c.(precision := n, at := c.at + |PrecisionText(f)|)
               case Star => c.(precision := if p < 0 then 0 else p, at := c.at + 2, arg := c.arg + 1)
  {
    hide ReadInt, Digits;
    var b, e := c.at, c.at + |PrecisionText(f)|;
    FirstOf(fmt, b, e, PrecisionText(f));
    match f
    case Absent =>
    case Bare => assert At(fmt, b + 1) == At(fmt, e);
    case Given(n) =>
      BehindPoint(fmt, b, e, Digits(n, 10, false));
      NumberRead(fmt, b + 1, n);
    case Star =>
      assert ".*" == "." + "*";
      BehindPoint(fmt, b, e, "*");
      assert fmt[b + 1] == fmt[b + 1..e][0];
  }

  /** The places at which the parts of a conversion begin. */
  datatype Marks = Marks(width: nat, precision: nat, qualifier: nat, conversion: nat)

  function MarksOf(i: nat, sp: Spec): Marks {
    var a := i + 1 + |sp.flags|;
    var b := a + |WidthText(sp.width)|;
    var c := b + |PrecisionText(sp.precision)|;
    Marks(a, b, c, c + |sp.qualifier|)
  }

  /** What follows a part cannot be taken for its continuation. */
  lemma MarksApart(fmt: string, i: nat, sp: Spec)
    requires StandsAt(fmt, i, sp) && WellFormed(sp)
    ensures var m := MarksOf(i, sp);
            && !IsFlag(At(fmt, m.width)) && Plain(At(fmt, m.qualifier))
            && (At(fmt, m.precision) == '.' || Plain(At(fmt, m.precision)))
            && (sp.width.Absent? ==> At(fmt, m.width) == '.' || Plain(At(fmt, m.width)))
            && (sp.qualifier == "" ==> At(fmt, m.qualifier) == sp.conversion)
            && (sp.qualifier != "" ==> At(fmt, m.qualifier) == sp.qualifier[0])
            && At(fmt, m.conversion) == sp.conversion && m.conversion < |fmt|
  {
    hide Digits;
    Parts(fmt, i, sp);
    var m := MarksOf(i, sp);
    FirstOf(fmt, m.width, m.precision, WidthText(sp.width));
    FirstOf(fmt, m.precision, m.qualifier, PrecisionText(sp.precision));
    FirstOf(fmt, m.qualifier, m.conversion, sp.qualifier);
    if sp.width.Given? { FirstDecimal(sp.width.n); }
  }

  lemma FirstDecimal(n: nat)
    requires n > 0
    ensures IsDigit(Digits(n, 10, false)[0]) && !IsFlag(Digits(n, 10, false)[0])
  {
    DecimalDigits(n);
  }

  function KindOf(sp: Spec, args: Args, k: nat): Kind {
    Kind('0' in sp.flags, false, '+' in sp.flags, ' ' in sp.flags, LeftOf(sp, args, k), false)
  }

  function ConvOf(sp: Spec, i: nat, args: Args, k: nat): Conv {
    Conv(KindOf(sp, args, k), WidthOf(sp, args, k), PrecisionOf(sp, args, k),
         if sp.qualifier == "" then '\0' else sp.qualifier[0], MarksOf(i, sp).conversion, ArgOf(sp, k))
  }

  /** The conversion up to its width. */
  function WidthConv(sp: Spec, i: nat, args: Args, k: nat): Conv {
    Conv(KindOf(sp, args, k), WidthOf(sp, args, k), -1, '\0', MarksOf(i, sp).precision,
         k + (if sp.width.Star? then 1 else 0))
  }

  lemma WidthDone(fmt: string, i: nat, sp: Spec, args: Args, k: nat)
    requires StandsAt(fmt, i, sp) && WellFormed(sp)
    ensures var c := Conv(WithFlags(PLAIN, sp.flags), -1, -1, '\0', MarksOf(i, sp).width, k);
            ReadWidth(fmt, c, args) == WidthConv(sp, i, args, k)
  {
    hide ReadWidth, Digits, IsFlag, IsDigit, ToSigned, Plain, StandsAt;
    var c := Conv(WithFlags(PLAIN, sp.flags), -1, -1, '\0', MarksOf(i, sp).width, k);
    Parts(fmt, i, sp);
    MarksApart(fmt, i, sp);
    PlainIs();
    WidthRead(fmt, c, sp.width, args);
  }

  lemma PrecisionDone(fmt: string, i: nat, sp: Spec, args: Args, k: nat)
    requires StandsAt(fmt, i, sp) && WellFormed(sp)
    ensures ReadPrecision(fmt, WidthConv(sp, i, args, k), args)
            == WidthConv(sp, i, args, k).(precision := PrecisionOf(sp, args, k), at := MarksOf(i, sp).qualifier,
                                          arg := ArgOf(sp, k))
  {
    hide ReadPrecision, Digits, IsFlag, IsDigit, ToSigned, Plain, StandsAt, WidthText, KindOf, WidthOf;
    Parts(fmt, i, sp);
    MarksApart(fmt, i, sp);
    PrecisionRead(fmt, WidthConv(sp, i, args, k), sp.precision, args);
  }

  /** A conversion written into a format is read back as what it says. */
  lemma ConversionRead(fmt: string, i: nat, sp: Spec, args: Args, k: nat)
    requires StandsAt(fmt, i, sp) && WellFormed(sp)
    ensures i < |fmt| && fmt[i] == '%' && ReadConv(fmt, i, args, k) == ConvOf(sp, i, args, k)
  {
    hide ReadFlags, ReadWidth, ReadPrecision, WidthText, PrecisionText, Plain, IsFlag, IsDigit, KindOf, WidthOf,
      PrecisionOf, StandsAt, WithFlags;
    Parts(fmt, i, sp);
    MarksApart(fmt, i, sp);
    FlagsRead(fmt, i + 1, sp.flags, PLAIN);
    WidthDone(fmt, i, sp, args, k);
    PrecisionDone(fmt, i, sp, args, k);
  }

  lemma PlainIs()
    ensures forall c :: Plain(c) ==> !IsDigit(c) && c != '*'
    ensures !IsDigit('.')
  {
  }

  // ----- Numbers

  /** The conversions print_number is called for. */
  predicate Numeric(c: char) { c == 'x' || c == 'X' || c == 'o' || c == 'p' || c == 'u' || c == 'd' || c == 'i' }

  predicate IsSigned(c: char) { c == 'd' || c == 'i' }

  /** The base of the digits; %o prints hexadecimal digits. */
  function BaseOf(c: char): nat { if c == 'u' || c == 'd' || c == 'i' then 10 else 16 }

  /** %p without a width is 8 wide and padded with zeros. */
  function FieldWidth(sp: Spec, args: Args, k: nat): int {
    if sp.conversion == 'p' && sp.width.Absent? then 8 else WidthOf(sp, args, k)
  }

  predicate ZeroPadded(sp: Spec, args: Args, k: nat) {
    !LeftOf(sp, args, k) && ('0' in sp.flags || (sp.conversion == 'p' && sp.width.Absent?))
  }

  /** `v` is what `word` means: its low 32 bits, or 16 with 'h', with or without sign. */
  predicate Meant(v: int, sp: Spec, word: int) {
    var m := if sp.qualifier == "h" && sp.conversion != 'p' then 0x1_0000 else 0x1_0000_0000;
    (v - word) % m == 0 && if IsSigned(sp.conversion) then -m / 2 <= v < m / 2 else 0 <= v < m
  }

  /** A text in its parts: spaces, sign, zeros, digits, spaces. */
  datatype Parted = Parted(before: nat, sign: string, zeros: nat, digits: string, behind: nat)

  function TextOf(l: Parted): string {
    Repeat(' ', l.before) + l.sign + Repeat('0', l.zeros) + l.digits + Repeat(' ', l.behind)
  }

  predicate DigitOf(c: char, base: nat, large: bool) {
    '0' <= c <= '9' || (base == 16 && if large then 'A' <= c <= 'F' else 'a' <= c <= 'f')
  }

  /** The digits of `n`: no more than needed, of the base and the case. */
  predicate Shows(ds: string, n: int, base: nat, large: bool) {
    && ds != "" && Value(ds, base) == n && (|ds| > 1 ==> ds[0] != '0')
    && forall j :: 0 <= j < |ds| ==> DigitOf(ds[j], base, large)
  }

  /** The sign: '-' for a negative number, else what '+' or ' ' asks for; only the signed conversions have one. */
  function SignOf(v: int, sp: Spec): string {
    if !IsSigned(sp.conversion) then "" else if v < 0 then "-" else if '+' in sp.flags then "+"
    else if ' ' in sp.flags then " " else ""
  }

  /** The text shows `v`: sign and digits, zeros up to the precision, and then padded to the width with zeros, with
      spaces in front, or with spaces behind, as the flags say. */
  predicate Laid(l: Parted, v: int, sp: Spec, args: Args, k: nat) {
    var more := Max(0, PrecisionOf(sp, args, k) - |l.digits|);
    var pad := Max(0, FieldWidth(sp, args, k) - |l.sign| - more - |l.digits|);
    && l.sign == SignOf(v, sp)
    && Shows(l.digits, if v < 0 then -v else v, BaseOf(sp.conversion), sp.conversion == 'X')
    && l.zeros == more + (if ZeroPadded(sp, args, k) then pad else 0)
    && l.behind == (if LeftOf(sp, args, k) then pad else 0)
    && l.before == (if LeftOf(sp, args, k) || ZeroPadded(sp, args, k) then 0 else pad)
  }

  lemma DigitIsOf(d: nat, base: nat, large: bool)
    requires d < base && (base == 10 || base == 16)
    ensures DigitOf(Digit(d, large), base, large) && (Digit(d, large) == '0' <==> d == 0)
  {
  }

  lemma {:induction false} DigitsShow(n: nat, base: nat, large: bool)
    requires base == 10 || base == 16
    ensures var ds := Digits(n, base, large);
            && (forall j :: 0 <= j < |ds| ==> DigitOf(ds[j], base, large)) && (n > 0 ==> ds[0] != '0')
            && (n == 0 ==> |ds| == 1)
  {
    hide Digit, DigitOf;
    DigitIsOf(Remainder(n, base), base, large);
    if n >= base { DigitsShow(Quotient(n, base), base, large); }
  }

  lemma ShowsDigits(n: nat, base: nat, large: bool)
    requires base == 10 || base == 16
    ensures Shows(Digits(n, base, large), n, base, large)
  {
    hide Digits, Value, DigitOf;
    DigitsShow(n, base, large);
    DigitsValue(n, base, large);
  }

  /** print_number puts out the parts in this order. */
  lemma LayoutParted(sign: string, ds: string, width: int, precision: int, kind: Kind) returns (l: Parted)
    requires precision != 0
    ensures var more := Max(0, precision - |ds|); var pad := Max(0, width - |sign| - more - |ds|);
            && l == Parted(if kind.left || kind.zeropad then 0 else pad, sign,
                           more + (if kind.zeropad && !kind.left then pad else 0), ds, if kind.left then pad else 0)
            && Layout(sign, ds, width, precision, kind) == TextOf(l)
  {
    var long := Max(precision, |ds|);
    var pad := width - long - |sign|;
    l := Parted(if kind.left || kind.zeropad then 0 else Max(0, pad), sign,
                long - |ds| + (if kind.zeropad && !kind.left then Max(0, pad) else 0), ds,
                if kind.left then Max(0, pad) else 0);
    RepeatJoin('0', pad, long - |ds|);
    Negative(' ', pad);
    Negative('0', pad);
    NoneIsEmpty(' ');
    NoneIsEmpty('0');
    Ends(sign, Repeat('0', long - |ds|), ds, Repeat(' ', pad), Repeat('0', pad));
  }

  lemma Negative(c: char, n: int)
    ensures Repeat(c, n) == Repeat(c, Max(0, n))
  {
  }

  lemma NoneIsEmpty(c: char)
    ensures Repeat(c, 0) == ""
  {
  }

  lemma Ends(s: string, z: string, d: string, p: string, y: string)
    ensures s + (z + d) + p == "" + s + z + d + p
    ensures s + y + (z + d) == "" + s + (y + z) + d + ""
    ensures p + s + (z + d) == p + s + z + d + ""
  {
  }

  /** The flags print_number is called with. */
  function NumberKind(sp: Spec, args: Args, k: nat): Kind {
    KindOf(sp, args, k).(sign := IsSigned(sp.conversion), large := sp.conversion == 'X',
                         zeropad := '0' in sp.flags || (sp.conversion == 'p' && sp.width.Absent?))
  }

  /** The number it is called with. */
  function NumberOf(sp: Spec, i: nat, args: Args, k: nat): int {
    var word := args(ArgOf(sp, k)).word;
    if sp.conversion == 'p' then ToSigned(word) else Number(ConvOf(sp, i, args, k), word, IsSigned(sp.conversion))
  }

  lemma Converts(fmt: string, i: nat, sp: Spec, args: Args, k: nat)
    requires StandsAt(fmt, i, sp) && WellFormed(sp) && Numeric(sp.conversion)
    ensures var base := if sp.conversion == 'o' then 8 else BaseOf(sp.conversion);
            Convert(fmt, ConvOf(sp, i, args, k), args)
            == Piece(NumberText(NumberOf(sp, i, args, k), base, FieldWidth(sp, args, k), PrecisionOf(sp, args, k),
                                NumberKind(sp, args, k)), i + |Render(sp)|, ArgOf(sp, k) + 1)
  {
    hide NumberText, Number, ToSigned, WidthText, PrecisionText, StandsAt, PrecisionOf;
    MarksApart(fmt, i, sp);
    Parts(fmt, i, sp);
    AbsentWidth(sp, args, k);
  }

  lemma AbsentWidth(sp: Spec, args: Args, k: nat)
    requires WellFormed(sp)
    ensures WidthOf(sp, args, k) == -1 <==> sp.width.Absent?
  {
  }

  /** The number print_number shows is the one that is meant. */
  lemma NumberMeant(sp: Spec, i: nat, args: Args, k: nat)
    requires WellFormed(sp) && Numeric(sp.conversion)
    ensures var num := NumberOf(sp, i, args, k);
            && -0x8000_0000 <= num < 0x8000_0000
            && Meant(if IsSigned(sp.conversion) then num else Magnitude(num, false), sp, args(ArgOf(sp, k)).word)
  {
    hide KindOf, WidthOf, PrecisionOf, MarksOf;
    var word := args(ArgOf(sp, k)).word;
    SignedAgrees(word);
    HalfAgrees(word);
  }

  lemma SignedAgrees(word: int)
    ensures var v := ToSigned(word);
            -0x8000_0000 <= v < 0x8000_0000 && (v - word) % 0x1_0000_0000 == 0
            && 0 <= Magnitude(v, false) < 0x1_0000_0000 && (Magnitude(v, false) - word) % 0x1_0000_0000 == 0
  {
    var q := word / 0x1_0000_0000;
    assert word == q * 0x1_0000_0000 + word % 0x1_0000_0000;
    Multiple(-q, 0x1_0000_0000);
    Multiple(-q - 1, 0x1_0000_0000);
  }

  lemma HalfAgrees(word: int)
    ensures var h := word % 0x1_0000;
            (h - word) % 0x1_0000 == 0 && (h - 0x1_0000 - word) % 0x1_0000 == 0
  {
    var q := word / 0x1_0000;
    assert word == q * 0x1_0000 + word % 0x1_0000;
    Multiple(-q, 0x1_0000);
    Multiple(-q - 1, 0x1_0000);
  }

  lemma Multiple(q: int, m: int)
    requires m == 0x1_0000 || m == 0x1_0000_0000
    ensures q * m % m == 0
  {
  }

  /** A numeric conversion, for every flag set, width and precision other than 0: its text shows the number that its
      argument means, reads back as that number, and the format goes on behind it. */
  lemma NumberPrinted(fmt: string, i: nat, sp: Spec, args: Args, k: nat) returns (v: int, l: Parted)
    requires StandsAt(fmt, i, sp) && WellFormed(sp) && Numeric(sp.conversion) && PrecisionOf(sp, args, k) != 0
    ensures FormatFrom(fmt, i, args, k) == TextOf(l) + FormatFrom(fmt, i + |Render(sp)|, args, ArgOf(sp, k) + 1)
    ensures Meant(v, sp, args(ArgOf(sp, k)).word) && Laid(l, v, sp, args, k)
    ensures ReadNumber(TextOf(l), BaseOf(sp.conversion)) == v
  {
    hide Convert, ReadConv, ReadNumber, Layout, Digits, Meant, TextOf, PrecisionOf, NumberOf, WellFormed, StandsAt,
      Render;
    var num, kind := NumberOf(sp, i, args, k), NumberKind(sp, args, k);
    var base, width, precision := BaseOf(sp.conversion), FieldWidth(sp, args, k), PrecisionOf(sp, args, k);
    ConversionRead(fmt, i, sp, args, k);
    Converts(fmt, i, sp, args, k);
    NumberMeant(sp, i, args, k);
    v := if IsSigned(sp.conversion) then num else Magnitude(num, false);
    var ds := Digits(Magnitude(num, kind.sign), base, kind.large);
    ShowsDigits(Magnitude(num, kind.sign), base, kind.large);
    l := LayoutParted(SignText(num, kind), ds, width, precision, kind);
    NumberReadsBack(num, base, width, precision, kind);
    assert NumberText(num, if sp.conversion == 'o' then 8 else base, width, precision, kind) == TextOf(l);
  }

  // ----- Strings and characters

  /** `text` holds `s`, padded with spaces to `width` on the side that `left` says. */
  predicate Padded(text: string, s: string, width: int, left: bool) {
    && |text| == Max(width, |s|)
    && (if left then text[..|s|] else text[|text| - |s|..]) == s
    && forall j :: (if left then |s| else 0) <= j < (if left then |text| else |text| - |s|) ==> text[j] == ' '
  }

  lemma PaddedBoth(s: string, width: int)
    ensures Padded(s + Repeat(' ', width - |s|), s, width, true)
    ensures Padded(Repeat(' ', width - |s|) + s, s, width, false)
  {
  }

  /** The argument as a string: "(NULL)" for a null pointer, else up to its terminator. */
  predicate StringIs(s: string, text: Text) {
    if text.Null? then s == "(NULL)"
    else s <= text.s && '\0' !in s && (|s| == |text.s| || text.s[|s|] == '\0')
  }

  lemma {:induction false} CStringIs(s: string)
    ensures CString(s) <= s && '\0' !in CString(s) && (|CString(s)| == |s| || s[|CString(s)|] == '\0')
  {
    if s != "" && s[0] != '\0' {
      CStringIs(s[1..]);
      assert s == [s[0]] + s[1..];
    }
  }

  /** %s shows its string, cut to a precision above 0, and padded to the width. */
  lemma StringPrinted(fmt: string, i: nat, sp: Spec, args: Args, k: nat) returns (s: string, text: string)
    requires StandsAt(fmt, i, sp) && WellFormed(sp) && sp.conversion == 's'
    ensures FormatFrom(fmt, i, args, k) == text + FormatFrom(fmt, i + |Render(sp)|, args, ArgOf(sp, k) + 1)
    ensures var p := PrecisionOf(sp, args, k);
            && StringIs(s, args(ArgOf(sp, k)).text)
            && Padded(text, if 0 < p < |s| then s[..p] else s, WidthOf(sp, args, k), LeftOf(sp, args, k))
  {
    hide ReadConv, PrecisionOf, WidthOf, StandsAt, Render, Padded, CString, WellFormed, LeftOf;
    ConversionRead(fmt, i, sp, args, k);
    MarksApart(fmt, i, sp);
    Parts(fmt, i, sp);
    var c, t := ConvOf(sp, i, args, k), args(ArgOf(sp, k)).text;
    s := if t.Null? then "(NULL)" else CString(t.s);
    if t.Chars? { CStringIs(t.s); }
    text := StringText(c, t);
    PaddedBoth(Shown(c, t), c.width);
  }

  /** %c shows its character, padded to the width. */
  lemma CharPrinted(fmt: string, i: nat, sp: Spec, args: Args, k: nat) returns (text: string)
    requires StandsAt(fmt, i, sp) && WellFormed(sp) && sp.conversion == 'c'
    ensures FormatFrom(fmt, i, args, k) == text + FormatFrom(fmt, i + |Render(sp)|, args, ArgOf(sp, k) + 1)
    ensures Padded(text, [(args(ArgOf(sp, k)).word % 256) as char], WidthOf(sp, args, k), LeftOf(sp, args, k))
  {
    hide ReadConv, PrecisionOf, WidthOf, StandsAt, Render, Padded, WellFormed, LeftOf, Repeat, WidthText, PrecisionText;
    ConversionRead(fmt, i, sp, args, k);
    MarksApart(fmt, i, sp);
    Parts(fmt, i, sp);
    var c, word := ConvOf(sp, i, args, k), args(ArgOf(sp, k)).word;
    text := CharText(c, word);
    PaddedBoth([(word % 256) as char], c.width);
  }

  /** %% shows '%', and an unknown conversion shows itself; neither takes an argument but for '*'. */
  lemma OtherPrinted(fmt: string, i: nat, sp: Spec, args: Args, k: nat)
    requires StandsAt(fmt, i, sp) && WellFormed(sp) && !Numeric(sp.conversion)
    requires sp.conversion != 's' && sp.conversion != 'c'
    ensures FormatFrom(fmt, i, args, k)
            == (if sp.conversion == '%' then "%" else ['%', sp.conversion])
               + FormatFrom(fmt, i + |Render(sp)|, args, ArgOf(sp, k))
  {
    hide ReadConv, PrecisionOf, WidthOf, StandsAt, Render, LeftOf, WellFormed;
    ConversionRead(fmt, i, sp, args, k);
    MarksApart(fmt, i, sp);
    Parts(fmt, i, sp);
    NotNull(sp);
  }

  lemma NotNull(sp: Spec)
    requires WellFormed(sp)
    ensures sp.conversion != '\0'
  {
  }
}
