/** The bounded formatter of kservice.c: rt_vsnprintf and print_number, as configured (RT_PRINTF_PRECISION
    on, RT_PRINTF_LONGLONG and RT_PRINTF_SPECIAL off, long of 32 bits).  Numbers are 32-bit patterns. */
module Printf {
  import opened Order

  type Text = seq<char>

  /** A C string: the characters before the terminating NUL. */
  type CText = t: Text | NUL !in t witness ""

  const WORD: nat := 0x1_0000_0000
  const HALF: nat := 0x8000_0000
  const NUL: char := '\0'
  const TMP: nat := 16             // size of tmp in print_number

  datatype Flags = Flags(left: bool, plus: bool, space: bool, zeroPad: bool, sign: bool, large: bool)

  /** The value of a pattern read as a signed number. */
  function Signed(n: nat): int {
    if n >= HALF then n - WORD else n
  }

  function Repeat(c: char, n: int): (t: Text)
    ensures |t| == Max(n, 0) && forall i :: 0 <= i < |t| ==> t[i] == c
  {
    if n <= 0 then [] else [c] + Repeat(c, n - 1)
  }

  lemma {:induction false} RepeatMore(c: char, n: nat)
    ensures Repeat(c, n) + [c] == Repeat(c, n + 1)
  {
    if n > 0 { RepeatMore(c, n - 1); }
  }

  // ----- digits -----

  /** divide: base 10 divides by 10, every other base by 16. */
  function Quotient(n: nat, base: nat): nat {
    if base == 10 then n / 10 else n / 16
  }

  function Remainder(n: nat, base: nat): nat {
    if base == 10 then n % 10 else n % 16
  }

  function Scaled(n: int, base: nat): int {
    if base == 10 then 10 * n else 16 * n
  }

  function DigitChar(d: nat, large: bool): char
    requires d < 16
  {
    if d < 10 then '0' + d as char else if large then 'A' + (d - 10) as char else 'a' + (d - 10) as char
  }

  /** The digits of a nonzero number, least significant first: the contents of tmp. */
  function Reversed(n: nat, base: nat, large: bool): Text
    decreases n
  {
    if n == 0 then [] else [DigitChar(Remainder(n, base), large)] + Reversed(Quotient(n, base), base, large)
  }

  function Digits(n: nat, base: nat, large: bool): Text {
    if n == 0 then "0" else Flip(Reversed(n, base, large))
  }

  function Flip(t: Text): (f: Text)
    ensures |f| == |t| && forall i :: 0 <= i < |t| ==> f[i] == t[|t| - 1 - i]
  {
    seq(|t|, i requires 0 <= i < |t| => t[|t| - 1 - i])
  }

  function DigitValue(c: char): int {
    if '0' <= c <= '9' then c as int - '0' as int
    else if 'a' <= c <= 'f' then c as int - 'a' as int + 10
    else if 'A' <= c <= 'F' then c as int - 'A' as int + 10
    else -1
  }

  /** Reading a text as a number, in base 10 or 16. */
  function Parse(t: Text, base: nat): int {
    if t == [] then 0 else Scaled(Parse(t[..|t| - 1], base), base) + DigitValue(t[|t| - 1])
  }

  lemma ReversedStep(n: nat, base: nat, large: bool)
    requires n > 0
    ensures Quotient(n, base) < n
    ensures Reversed(n, base, large)
            == [DigitChar(Remainder(n, base), large)] + Reversed(Quotient(n, base), base, large)
  {
  }

  lemma ReversedZero(base: nat, large: bool)
    ensures Reversed(0, base, large) == [] && Flip("0") == "0"
  {
  }

  lemma DigitReads(d: nat, large: bool)
    requires d < 16
    ensures DigitValue(DigitChar(d, large)) == d
  {
  }

  lemma {:induction false} ReversedParses(n: nat, base: nat, large: bool)
    ensures Parse(Flip(Reversed(n, base, large)), base) == n
    decreases n
  {
    hide DigitChar, DigitValue;
    if n > 0 {
      ReversedParses(Quotient(n, base), base, large);
      var t := Flip(Reversed(n, base, large));
      assert t[..|t| - 1] == Flip(Reversed(Quotient(n, base), base, large));
      DigitReads(Remainder(n, base), large);
    }
  }

  /** The digits read back as the number. */
  lemma DigitsParse(n: nat, base: nat, large: bool)
    ensures Parse(Digits(n, base, large), base) == n
  {
    if n == 0 {
      assert Digits(n, base, large)[..0] == [];
    } else {
      ReversedParses(n, base, large);
    }
  }

  /** %o prints hexadecimal digits. */
  lemma OctalPrintsHex(n: nat, large: bool)
    ensures Digits(n, 8, large) == Digits(n, 16, large)
  {
    SameReversed(n, large);
  }

  lemma {:induction false} SameReversed(n: nat, large: bool)
    ensures Reversed(n, 8, large) == Reversed(n, 16, large)
    decreases n
  {
    hide DigitChar;
    if n > 0 { SameReversed(Quotient(n, 8), large); }
  }

  lemma {:induction false} ZerosParse(z: nat, t: Text, base: nat)
    ensures Parse(Repeat('0', z) + t, base) == Parse(t, base)
  {
    if t == [] {
      assert Repeat('0', z) + t == Repeat('0', z);
      if z > 0 {
        RepeatMore('0', z - 1);
        assert Repeat('0', z)[..z - 1] == Repeat('0', z - 1) + [];
        ZerosParse(z - 1, [], base);
      }
    } else {
      var all := Repeat('0', z) + t;
      assert all[..|all| - 1] == Repeat('0', z) + t[..|t| - 1];
      ZerosParse(z, t[..|t| - 1], base);
    }
  }

  /** base^k for the two radices. */
  function Limit(base: nat, k: nat): nat {
    if k == 0 then 1 else if base == 10 then 10 * Limit(base, k - 1) else 16 * Limit(base, k - 1)
  }

  lemma {:induction false} DigitCount(n: nat, base: nat, large: bool, k: nat)
    requires n < Limit(base, k)
    ensures |Reversed(n, base, large)| <= k
    decreases n
  {
    hide DigitChar;
    if n > 0 {
      DigitCount(Quotient(n, base), base, large, k - 1);
    }
  }

  lemma Limits(base: nat)
    ensures Limit(base, 10) >= WORD
  {
    if base == 10 {
      assert Limit(base, 3) == 1000;
      assert Limit(base, 6) == 1000000;
      assert Limit(base, 9) == 1000000000;
    } else {
      assert Limit(base, 1) == 16;
      assert Limit(base, 3) == 4096;
      assert Limit(base, 5) == 1048576;
      assert Limit(base, 7) == 268435456;
      assert Limit(base, 9) == 68719476736;
    }
  }

  /** tmp never overflows: a 32-bit number has at most ten digits in either radix. */
  lemma TmpHolds(n: nat, base: nat, large: bool)
    requires n < WORD
    ensures |Reversed(n, base, large)| <= 10 < TMP
  {
    Limits(base);
    DigitCount(n, base, large, 10);
  }

  // ----- print_number -----

  function Sign(num: nat, f: Flags): Text {
    if !f.sign then "" else if num >= HALF then "-" else if f.plus then "+" else if f.space then " " else ""
  }

  /** The magnitude print_number works on: -num wraps to the pattern of 2^31 for the most negative number. */
  function Magnitude(num: nat, f: Flags): (m: nat)
    requires num < WORD
    ensures m < WORD
  {
    if f.sign && num >= HALF then WORD - num else num
  }

  /** What print_number prints, whatever the room for it. */
  function Number(num: nat, base: nat, width: int, precision: int, f: Flags): Text
    requires num < WORD
  {
    Assembled(Sign(num, f), Digits(Magnitude(num, f), base, f.large), width, precision, f)
  }

  function Assembled(sign: Text, digits: Text, width: int, precision: int, f: Flags): Text {
    var count := Max(precision, |digits|);
    var pad := width - count - |sign|;
    var body := Repeat('0', count - |digits|) + if precision != 0 then digits else "";
    Lead(f, pad) + sign + Mid(f, pad) + body + Tail(f, pad)
  }

  /** Padding goes in front of the sign, between sign and digits, or behind. */
  function Lead(f: Flags, pad: int): Text {
    if !f.left && !f.zeroPad then Repeat(' ', pad) else ""
  }

  function Mid(f: Flags, pad: int): Text {
    if !f.left && f.zeroPad then Repeat('0', pad) else ""
  }

  function Tail(f: Flags, pad: int): Text {
    if f.left then Repeat(' ', pad) else ""
  }

  /** Exact length; with precision 0 the digits are counted for the padding but not printed. */
  lemma NumberLength(num: nat, base: nat, width: int, precision: int, f: Flags)
    requires num < WORD
    ensures var digits, sign := |Digits(Magnitude(num, f), base, f.large)|, |Sign(num, f)|;
            |Number(num, base, width, precision, f)|
            == if precision != 0 then Max(width, sign + Max(precision, digits)) else Max(width, sign + digits) - digits
  {
  }

  /** Where the digit part, leading zeros included, begins. */
  function DigitsAt(num: nat, base: nat, width: int, precision: int, f: Flags): nat
    requires num < WORD
  {
    var digits, sign := |Digits(Magnitude(num, f), base, f.large)|, |Sign(num, f)|;
    if f.left then sign else Max(width - Max(precision, digits) - sign, 0) + sign
  }

  /** The digit part reads back as the magnitude of the number, the sign in front of it tells the rest. */
  lemma NumberParses(num: nat, base: nat, width: int, precision: int, f: Flags)
    requires num < WORD && precision != 0
    ensures var t, at := Number(num, base, width, precision, f), DigitsAt(num, base, width, precision, f);
            var stop := at + Max(precision, |Digits(Magnitude(num, f), base, f.large)|);
            stop <= |t| && Parse(t[at..stop], base) == Magnitude(num, f)
  {
    hide Digits, Parse, Magnitude, Sign;
    var digits, sign := Digits(Magnitude(num, f), base, f.large), Sign(num, f);
    var count := Max(precision, |digits|);
    var body := Repeat('0', count - |digits|) + digits;
    var t, at := Number(num, base, width, precision, f), DigitsAt(num, base, width, precision, f);
    assert t[at..at + count] == body;
    ZerosParse(count - |digits|, digits, base);
    DigitsParse(Magnitude(num, f), base, f.large);
  }

  /** All the characters of t between i and j are c. */
  predicate Filled(t: Text, i: nat, j: nat, c: char) {
    i <= j <= |t| && forall k :: i <= k < j ==> t[k] == c
  }

  /** Sign, digits and padding in text t: the padding behind the digits with the flag '-', between sign and digits as
      zeros with the flag '0', in front of the sign as blanks otherwise; zeros fill the digits up to the precision. */
  ghost predicate Sides(t: Text, sign: Text, digits: Text, width: int, precision: int, f: Flags) {
    var count := Max(precision, |digits|);
    var pad := Max(width - count - |sign|, 0);
    var at := if f.left then |sign| else |sign| + pad;
    && |t| == |sign| + count + pad
    && (f.left ==> sign <= t && Filled(t, |sign| + count, |t|, ' '))
    && (!f.left && f.zeroPad ==> sign <= t && Filled(t, |sign|, |sign| + pad, '0'))
    && (!f.left && !f.zeroPad ==> Filled(t, 0, pad, ' ') && sign <= t[pad..])
    && Filled(t, at, at + count - |digits|, '0') && t[at + count - |digits|..at + count] == digits
  }

  /** What a number looks like, for every width, flag and precision but 0. */
  lemma NumberSides(num: nat, base: nat, width: int, precision: int, f: Flags)
    requires num < WORD && precision != 0
    ensures Sides(Number(num, base, width, precision, f), Sign(num, f), Digits(Magnitude(num, f), base, f.large),
                  width, precision, f)
  {
    hide Digits, Magnitude, Sign, Sides, Assembled;
    AssembledSides(Sign(num, f), Digits(Magnitude(num, f), base, f.large), width, precision, f);
  }

  lemma AssembledSides(sign: Text, digits: Text, width: int, precision: int, f: Flags)
    requires precision != 0
    ensures Sides(Assembled(sign, digits, width, precision, f), sign, digits, width, precision, f)
  {
    hide Repeat, Filled;
    var count := Max(precision, |digits|);
    var pad, zeros := width - count - |sign|, Repeat('0', count - |digits|);
    Blanks('0', count - |digits|);
    Blanks(' ', pad);
    Blanks('0', pad);
    Nothing(' ');
    Nothing('0');
    Pieces(Lead(f, pad), sign, Mid(f, pad), zeros, digits, Tail(f, pad));
  }

  /** A text of blanks, sign, zeros, more zeros, digits and blanks. */
  lemma Pieces(lead: Text, sign: Text, mid: Text, zeros: Text, digits: Text, tail: Text)
    requires Filled(lead, 0, |lead|, ' ') && Filled(mid, 0, |mid|, '0') && Filled(zeros, 0, |zeros|, '0')
    requires Filled(tail, 0, |tail|, ' ')
    ensures var t, at := lead + sign + mid + (zeros + digits) + tail, |lead| + |sign| + |mid|;
            && |t| == at + |zeros| + |digits| + |tail|
            && Filled(t, 0, |lead|, ' ') && sign <= t[|lead|..] && (lead == "" ==> sign <= t)
            && Filled(t, |lead| + |sign|, at, '0') && Filled(t, at, at + |zeros|, '0')
            && t[at + |zeros|..at + |zeros| + |digits|] == digits && Filled(t, at + |zeros| + |digits|, |t|, ' ')
  {
    var t, at := lead + sign + mid + (zeros + digits) + tail, |lead| + |sign| + |mid|;
    assert t[|lead|..|lead| + |sign|] == sign;
    assert t[|lead|..][..|sign|] == sign;
    assert t[at + |zeros|..at + |zeros| + |digits|] == digits;
  }

  lemma Nothing(c: char)
    ensures Filled("", 0, 0, c)
  {
  }

  lemma Blanks(c: char, n: int)
    ensures |Repeat(c, n)| == Max(n, 0) && Filled(Repeat(c, n), 0, Max(n, 0), c)
  {
  }

  /** The alphabet of the digits: decimal in base 10; otherwise with letters of the case asked for. */
  lemma {:induction false} DigitsCase(n: nat, base: nat, large: bool)
    ensures forall c :: c in Digits(n, base, large) ==>
              '0' <= c <= '9' || (base != 10 && if large then 'A' <= c <= 'F' else 'a' <= c <= 'f')
  {
    ReversedCase(n, base, large);
    var r, t := Reversed(n, base, large), Digits(n, base, large);
    forall c | c in t ensures n > 0 ==> c in r {
      var i :| 0 <= i < |t| && t[i] == c;
      assert n > 0 ==> c == r[|r| - 1 - i];
    }
  }

  lemma {:induction false} ReversedCase(n: nat, base: nat, large: bool)
    ensures forall c :: c in Reversed(n, base, large) ==>
              '0' <= c <= '9' || (base != 10 && if large then 'A' <= c <= 'F' else 'a' <= c <= 'f')
    decreases n
  {
    if n > 0 { ReversedCase(Quotient(n, base), base, large); }
  }

  lemma SignTells(num: nat, f: Flags)
    requires num < WORD && f.sign
    ensures Signed(num) == if Sign(num, f) == "-" then 0 - Magnitude(num, f) else Magnitude(num, f)
  {
  }

  // ----- the format -----

  /** A pattern for integer and pointer arguments, a text for %s, or a null pointer. */
  datatype Arg = Int(value: nat) | Str(text: CText) | Null

  /** va_arg of an integer; reading an argument that is not there is undefined in C and reads 0 here. */
  function IntArg(args: seq<Arg>): (n: nat)
    ensures n < WORD
  {
    if args != [] && args[0].Int? then args[0].value % WORD else 0
  }

  function TextArg(args: seq<Arg>): CText {
    if args != [] && args[0].Str? then args[0].text else "(NULL)"
  }

  function Rest(args: seq<Arg>): seq<Arg> {
    if args == [] then [] else args[1..]
  }

  function At(fmt: Text, i: nat): char {
    if i < |fmt| then fmt[i] else NUL
  }

  function IsDigit(c: char): bool {
    '0' <= c <= '9'
  }

  /** skip_atoi: the value read and where reading stopped. */
  function SkipAtoi(fmt: Text, i: nat, n: nat): (r: (nat, nat))
    ensures i <= r.1 && (i <= |fmt| ==> r.1 <= |fmt|)
    decreases |fmt| - i
  {
    if i < |fmt| && IsDigit(fmt[i]) then SkipAtoi(fmt, i + 1, n * 10 + (fmt[i] as int - '0' as int)) else (n, i)
  }

  const NO_FLAGS := Flags(false, false, false, false, false, false)

  function FlagsFrom(fmt: Text, i: nat, f: Flags): (r: (Flags, nat))
    ensures i <= r.1 && (i <= |fmt| ==> r.1 <= |fmt|)
    decreases |fmt| - i
  {
    if i >= |fmt| then (f, i)
    else if fmt[i] == '-' then FlagsFrom(fmt, i + 1, f.(left := true))
    else if fmt[i] == '+' then FlagsFrom(fmt, i + 1, f.(plus := true))
    else if fmt[i] == ' ' then FlagsFrom(fmt, i + 1, f.(space := true))
    else if fmt[i] == '#' then FlagsFrom(fmt, i + 1, f)
    else if fmt[i] == '0' then FlagsFrom(fmt, i + 1, f.(zeroPad := true))
    else (f, i)
  }

  predicate IsFlag(c: char) {
    c == '-' || c == '+' || c == ' ' || c == '#' || c == '0'
  }

  /** Each flag is set iff its character is among those read, and reading stops at the first other character. */
  lemma {:induction false} FlagsRead(fmt: Text, i: nat, f: Flags)
    requires i <= |fmt|
    ensures var (g, j) := FlagsFrom(fmt, i, f);
            && (g.left <==> f.left || '-' in fmt[i..j]) && (g.plus <==> f.plus || '+' in fmt[i..j])
            && (g.space <==> f.space || ' ' in fmt[i..j]) && (g.zeroPad <==> f.zeroPad || '0' in fmt[i..j])
            && g.sign == f.sign && g.large == f.large
            && (forall c :: c in fmt[i..j] ==> IsFlag(c)) && (j < |fmt| ==> !IsFlag(fmt[j]))
    decreases |fmt| - i
  {
    if i < |fmt| && IsFlag(fmt[i]) {
      var h := Flagged(fmt[i], f);
      OneFlag(fmt, i, f);
      FlagsRead(fmt, i + 1, h);
      hide FlagsFrom;
      var (g, j) := FlagsFrom(fmt, i, f);
      FirstChar(fmt, i, j);
    }
  }

  function Flagged(c: char, f: Flags): Flags {
    f.(left := f.left || c == '-', plus := f.plus || c == '+', space := f.space || c == ' ',
       zeroPad := f.zeroPad || c == '0')
  }

  lemma OneFlag(fmt: Text, i: nat, f: Flags)
    requires i < |fmt| && IsFlag(fmt[i])
    ensures FlagsFrom(fmt, i, f) == FlagsFrom(fmt, i + 1, Flagged(fmt[i], f))
  {
  }

  lemma FirstChar(t: Text, i: nat, j: nat)
    requires i < j <= |t|
    ensures forall c :: c in t[i..j] <==> c == t[i] || c in t[i + 1..j]
  {
    assert t[i..j] == [t[i]] + t[i + 1..j];
  }

  /** The number read is that of the digits passed, and reading stops at the first other character. */
  lemma {:induction false} AtoiParses(fmt: Text, i: nat, n: nat)
    requires i <= |fmt|
    ensures var (m, j) := SkipAtoi(fmt, i, n);
            && (forall c :: c in fmt[i..j] ==> '0' <= c <= '9') && (j < |fmt| ==> !('0' <= fmt[j] <= '9'))
            && (n == 0 ==> m == Parse(fmt[i..j], 10))
  {
    var (m, j) := SkipAtoi(fmt, i, n);
    AtoiStops(fmt, i, n);
    if n == 0 {
      AtoiFrom(fmt, i, i, 0);
    }
  }

  lemma {:induction false} AtoiStops(fmt: Text, i: nat, n: nat)
    requires i <= |fmt|
    ensures var (m, j) := SkipAtoi(fmt, i, n);
            (forall c :: c in fmt[i..j] ==> '0' <= c <= '9') && (j < |fmt| ==> !('0' <= fmt[j] <= '9'))
    decreases |fmt| - i
  {
    var (m, j) := SkipAtoi(fmt, i, n);
    if i < |fmt| && IsDigit(fmt[i]) {
      AtoiStops(fmt, i + 1, n * 10 + (fmt[i] as int - '0' as int));
      assert fmt[i..j] == [fmt[i]] + fmt[i + 1..j];
    }
  }

  lemma {:induction false} AtoiFrom(fmt: Text, start: nat, i: nat, n: nat)
    requires start <= i <= |fmt| && n == Parse(fmt[start..i], 10)
    ensures var (m, j) := SkipAtoi(fmt, i, n); i <= j <= |fmt| && m == Parse(fmt[start..j], 10)
    decreases |fmt| - i
  {
    if i < |fmt| && IsDigit(fmt[i]) {
      assert fmt[start..i + 1][..i - start] == fmt[start..i];
      AtoiFrom(fmt, start, i + 1, n * 10 + (fmt[i] as int - '0' as int));
    }
  }

  /** A conversion as far as it is read: the position is that of the next format character. */
  datatype Directive = Directive(flags: Flags, width: int, precision: int, qualifier: char, at: nat, args: seq<Arg>)

  /** Field width: -1 if none is given, that of the next argument for `*`. */
  function WidthFrom(fmt: Text, d: Directive): (r: Directive)
    ensures d.at <= r.at && (d.at <= |fmt| ==> r.at <= |fmt|)
  {
    if IsDigit(At(fmt, d.at)) then
      var (n, i) := SkipAtoi(fmt, d.at, 0);
      d.(width := n, at := i)
    else if At(fmt, d.at) == '*' then
      var w := Signed(IntArg(d.args));
      if w < 0 then d.(width := -w, flags := d.flags.(left := true), at := d.at + 1, args := Rest(d.args))
      else d.(width := w, at := d.at + 1, args := Rest(d.args))
    else d
  }

  /** Precision: -1 if none is given, never negative otherwise. */
  function PrecisionFrom(fmt: Text, d: Directive): (r: Directive)
    ensures d.at <= r.at && (d.at <= |fmt| ==> r.at <= |fmt|)
  {
    if At(fmt, d.at) != '.' then d
    else if IsDigit(At(fmt, d.at + 1)) then
      var (n, i) := SkipAtoi(fmt, d.at + 1, 0);
      d.(precision := n, at := i)
    else if At(fmt, d.at + 1) == '*' then
      d.(precision := Max(Signed(IntArg(d.args)), 0), at := d.at + 2, args := Rest(d.args))
    else d.(precision := 0, at := d.at + 1)
  }

  /** The width is the number written, or the next argument, whose sign then means left; the precision is the number
      written after the dot, or the next argument, or 0. */
  lemma WidthAndPrecision(fmt: Text, d: Directive)
    requires d.at < |fmt|
    ensures var r := WidthFrom(fmt, d);
            && ('0' <= fmt[d.at] <= '9' ==>
               r.width == Parse(fmt[d.at..r.at], 10) && r.args == d.args && r.flags == d.flags)
            && (fmt[d.at] == '*' ==>
                  && r.width == (if Signed(IntArg(d.args)) < 0 then -Signed(IntArg(d.args)) else Signed(IntArg(d.args)))
                  && r.flags == (if Signed(IntArg(d.args)) < 0 then d.flags.(left := true) else d.flags)
                  && r.at == d.at + 1 && (d.args != [] ==> r.args == d.args[1..]))
            && (fmt[d.at] != '*' && !('0' <= fmt[d.at] <= '9') ==> r == d)
    ensures var r := PrecisionFrom(fmt, d);
            && (fmt[d.at] != '.' ==> r == d)
            && (fmt[d.at] == '.' && d.at + 1 < |fmt| && '0' <= fmt[d.at + 1] <= '9' ==>
                  r.precision == Parse(fmt[d.at + 1..r.at], 10) && r.args == d.args)
            && (fmt[d.at] == '.' && d.at + 1 < |fmt| && fmt[d.at + 1] == '*' ==>
                  && r.precision == (if Signed(IntArg(d.args)) < 0 then 0 else Signed(IntArg(d.args)))
                  && r.at == d.at + 2 && (d.args != [] ==> r.args == d.args[1..]))
            && (fmt[d.at] == '.' && (d.at + 1 == |fmt| || (fmt[d.at + 1] != '*' && !('0' <= fmt[d.at + 1] <= '9'))) ==>
                  r.precision == 0 && r.at == d.at + 1 && r.args == d.args)
  {
    hide Parse;
    AtoiParses(fmt, d.at, 0);
    if d.at + 1 < |fmt| { AtoiParses(fmt, d.at + 1, 0); }
  }

  function QualifierFrom(fmt: Text, d: Directive): (r: Directive)
    ensures d.at <= r.at && (d.at <= |fmt| ==> r.at <= |fmt|)
  {
    if At(fmt, d.at) == 'h' || At(fmt, d.at) == 'l' then d.(qualifier := At(fmt, d.at), at := d.at + 1) else d
  }

  /** Everything between the `%` at i and the conversion character. */
  function DirectiveFrom(fmt: Text, i: nat, args: seq<Arg>): (r: Directive)
    requires i < |fmt|
    ensures i < r.at <= |fmt|
  {
    var (f, j) := FlagsFrom(fmt, i + 1, NO_FLAGS);
    QualifierFrom(fmt, PrecisionFrom(fmt, WidthFrom(fmt, Directive(f, -1, -1, NUL, j, args))))
  }

  /** A text field.  The width also cuts the text; precision 0 does not. */
  function TextLength(text: Text, width: int, precision: int): (n: nat)
    ensures n <= |text|
  {
    var len := if 0 <= width < |text| then width else |text|;
    if precision > 0 && len > precision then precision else len
  }

  function TextField(text: Text, width: int, precision: int, left: bool): Text {
    var len := TextLength(text, width, precision);
    if left then text[..len] + Repeat(' ', width - len) else Repeat(' ', width - len) + text[..len]
  }

  /** A width is exact for %s: shorter texts are padded to it, longer ones cut to it. */
  lemma TextFieldExact(text: Text, width: int, precision: int, left: bool)
    ensures |TextField(text, width, precision, left)| == if width >= 0 then width
            else TextLength(text, width, precision)
    ensures width < 0 && precision <= 0 ==> TextField(text, width, precision, left) == text
  {
    NoRepeat(' ');
    assert text[..|text|] == text;
  }

  /** The text, cut to `len`, stands at the left with the flag '-' and at the right otherwise; the rest is blanks. */
  lemma TextFieldSides(text: Text, width: int, precision: int, left: bool)
    ensures var t, len := TextField(text, width, precision, left), TextLength(text, width, precision);
            && |t| >= len
            && (left ==> t[..len] == text[..len] && Filled(t, len, |t|, ' '))
            && (!left ==> t[|t| - len..] == text[..len] && Filled(t, 0, |t| - len, ' '))
  {
  }

  /** How much of the text is printed: no more than the width, nor than a positive precision. */
  lemma TextCut(text: Text, width: int, precision: int)
    ensures var len := TextLength(text, width, precision);
            && (width >= 0 ==> len <= width) && (precision > 0 ==> len <= precision)
            && (len < |text| ==> len == width || (precision > 0 && len == precision))
  {
  }

  function CharField(c: char, width: int, left: bool): Text {
    if left then [c] + Repeat(' ', width - 1) else Repeat(' ', width - 1) + [c]
  }

  /** The pattern handed to print_number: %h cuts to 16 bits, sign-extended for signed conversions. */
  function Operand(n: nat, qualifier: char, sign: bool): (r: nat)
    requires n < WORD
    ensures r < WORD
  {
    if qualifier == 'h' then
      var low := n % 65536;
      if sign && low >= 32768 then WORD - 65536 + low else low
    else n
  }

  /** The text of one directive, the arguments left, and where the format goes on. */
  function Convert(fmt: Text, d: Directive): (r: (Text, seq<Arg>, nat))
    requires d.at <= |fmt|
    ensures d.at <= r.2 <= |fmt|
  {
    var c, n := At(fmt, d.at), IntArg(d.args);
    if d.at == |fmt| then ("%", d.args, d.at)
    else if c == 'c' then (CharField((n % 256) as char, d.width, d.flags.left), Rest(d.args), d.at + 1)
    else if c == 's' then (TextField(TextArg(d.args), d.width, d.precision, d.flags.left), Rest(d.args), d.at + 1)
    else if c == 'p' then
      (if d.width == -1 then Number(n, 16, 8, d.precision, d.flags.(zeroPad := true))
        else Number(n, 16, d.width, d.precision, d.flags),
       Rest(d.args), d.at + 1)
    else if c == '%' then ("%", d.args, d.at + 1)
    else if c == 'o' then (Number(Operand(n, d.qualifier, d.flags.sign), 8, d.width, d.precision, d.flags),
      Rest(d.args), d.at + 1)
    else if c == 'x' || c == 'X' then
      (Number(Operand(n, d.qualifier, d.flags.sign), 16, d.width, d.precision,
        d.flags.(large := d.flags.large || c == 'X')), Rest(d.args), d.at + 1)
    else if c == 'd' || c == 'i' then
      (Number(Operand(n, d.qualifier, true), 10, d.width, d.precision, d.flags.(sign := true)), Rest(d.args), d.at + 1)
    else if c == 'u' then (Number(Operand(n, d.qualifier, d.flags.sign), 10, d.width, d.precision, d.flags),
      Rest(d.args), d.at + 1)
    else ("%" + [c], d.args, d.at + 1)
  }

  /** The value of the argument of a numeric conversion: 32 bits, or with %h the low 16, signed or not. */
  lemma OperandValue(n: nat, qualifier: char)
    requires n < WORD
    ensures qualifier != 'h' ==> Operand(n, qualifier, true) == Operand(n, qualifier, false) == n
    ensures qualifier == 'h' ==> Operand(n, qualifier, false) == n % 65536
    ensures qualifier == 'h' ==> Signed(Operand(n, qualifier, true)) == (n + 32768) % 65536 - 32768
  {
    var low := n % 65536;
    assert n == (n / 65536) * 65536 + low;
    if low >= 32768 {
      assert n + 32768 == (n / 65536 + 1) * 65536 + (low - 32768);
    } else {
      assert n + 32768 == (n / 65536) * 65536 + (low + 32768);
    }
  }

  /** Each conversion by its character: radix, case, signedness, what it reads and where it stops. */
  lemma ConversionOf(fmt: Text, d: Directive)
    requires d.at < |fmt| && !d.flags.sign && !d.flags.large
    ensures var (text, rest, next) := Convert(fmt, d);
            var c, n, w, p, f := fmt[d.at], IntArg(d.args), d.width, d.precision, d.flags;
            && next == d.at + 1
            && rest == (if c in "cspoxXdiu" && d.args != [] then d.args[1..] else d.args)
            && (c in "di" ==> text == Number(Operand(n, d.qualifier, true), 10, w, p, f.(sign := true)))
            && (c == 'u' ==> text == Number(Operand(n, d.qualifier, false), 10, w, p, f))
            && (c == 'x' ==> text == Number(Operand(n, d.qualifier, false), 16, w, p, f))
            && (c == 'X' ==> text == Number(Operand(n, d.qualifier, false), 16, w, p, f.(large := true)))
            && (c == 'o' ==> text == Number(Operand(n, d.qualifier, false), 8, w, p, f))
            && (c == 'p' && w != -1 ==> text == Number(n, 16, w, p, f))
            && (c == 'p' && w == -1 ==> text == Number(n, 16, 8, p, f.(zeroPad := true)))
            && (c == 's' ==> text == TextField(TextArg(d.args), w, p, f.left))
            && (c == 'c' ==> |text| == Max(w, 1) && text[if f.left then 0 else |text| - 1] == (n % 256) as char)
            && (c == 'c' ==> Filled(text, if f.left then 1 else 0, if f.left then |text| else |text| - 1, ' '))
            && (c == '%' ==> text == "%")
            && (c !in "cspoxXdiu%" ==> text == ['%', c])
  {
    hide Number, TextField, Operand;
  }

  /** A directive as it is read is neither signed nor in capitals before its conversion character. */
  lemma DirectivePlain(fmt: Text, i: nat, args: seq<Arg>)
    requires i < |fmt|
    ensures !DirectiveFrom(fmt, i, args).flags.sign && !DirectiveFrom(fmt, i, args).flags.large
  {
    FlagsRead(fmt, i + 1, NO_FLAGS);
  }

  /** "%d" prints the decimal digits of a 32-bit number with its sign. */
  lemma PlainDecimal(v: nat)
    requires v < WORD
    ensures var t := Format("%d", 0, [Int(v)]);
            if v < HALF then Parse(t, 10) == v
            else |t| > 0 && t[0] == '-' && Parse(t[1..], 10) == WORD - v
  {
    hide Number, Digits, Parse;
    var f := NO_FLAGS.(sign := true);
    PlainDirective("%d", 0, [Int(v)], v);
    PlainNumber(v, 10, f);
    DigitsParse(Magnitude(v, f), 10, false);
    var digits := Digits(Magnitude(v, f), 10, false);
    assert ("-" + digits)[1..] == digits;
    assert "" + digits == digits;
    assert Number(v, 10, -1, -1, f) + "" == Number(v, 10, -1, -1, f);
  }

  /** "%x" prints the hexadecimal digits of a 32-bit number. */
  lemma PlainHexadecimal(v: nat)
    requires v < WORD
    ensures Parse(Format("%x", 0, [Int(v)]), 16) == v
  {
    hide Number, Digits, Parse;
    PlainDirective("%x", 0, [Int(v)], v);
    PlainNumber(v, 16, NO_FLAGS);
    DigitsParse(v, 16, false);
    var digits := Digits(v, 16, false);
    assert "" + digits + "" == digits;
  }

  /** Anywhere in a format, "%d", "%u" or "%x" prints the next argument, and the rest goes on with the arguments that
      are left. */
  lemma PlainDirective(fmt: Text, i: nat, args: seq<Arg>, v: nat)
    requires i + 1 < |fmt| && fmt[i] == '%' && fmt[i + 1] in "dux"
    requires args != [] && args[0] == Int(v) && v < WORD
    ensures var f := NO_FLAGS.(sign := fmt[i + 1] == 'd');
            Format(fmt, i, args)
            == Number(v, if fmt[i + 1] == 'x' then 16 else 10, -1, -1, f) + Format(fmt, i + 2, args[1..])
  {
    hide Number, DirectiveFrom, Convert, Operand;
    BareDirective(fmt, i, args);
    ConversionOf(fmt, DirectiveFrom(fmt, i, args));
    OperandValue(v, NUL);
  }

  lemma BareDirective(fmt: Text, i: nat, args: seq<Arg>)
    requires i + 1 < |fmt| && fmt[i + 1] in "dux"
    ensures DirectiveFrom(fmt, i, args) == Directive(NO_FLAGS, -1, -1, NUL, i + 1, args)
  {
  }

  lemma Together(c: char, t: Text, rest: Text)
    ensures [c] + (t + rest) == ([c] + t) + rest
  {
  }

  /** Text without directives goes out as it is. */
  lemma {:induction false} LiteralCopied(fmt: Text, i: nat, j: nat, args: seq<Arg>)
    requires i <= j <= |fmt| && '%' !in fmt[i..j]
    ensures Format(fmt, i, args) == fmt[i..j] + Format(fmt, j, args)
    decreases j - i
  {
    hide Convert, DirectiveFrom;
    if i == j {
      assert fmt[i..j] == "";
    } else {
      FirstChar(fmt, i, j);
      LiteralCopied(fmt, i + 1, j, args);
      Together(fmt[i], fmt[i + 1..j], Format(fmt, j, args));
    }
  }

  lemma PlainNumber(num: nat, base: nat, f: Flags)
    requires num < WORD && !f.left && !f.zeroPad
    ensures Number(num, base, -1, -1, f) == Sign(num, f) + Digits(Magnitude(num, f), base, f.large)
  {
    hide Digits, Sign, Magnitude;
    var sign, digits := Sign(num, f), Digits(Magnitude(num, f), base, f.large);
    assert "" + sign + "" + ("" + digits) + "" == sign + digits;
  }

  /** The unbounded output of a format from position i on. */
  function Format(fmt: Text, i: nat, args: seq<Arg>): Text
    requires i <= |fmt|
    decreases |fmt| - i
  {
    if i == |fmt| then ""
    else if fmt[i] != '%' then [fmt[i]] + Format(fmt, i + 1, args)
    else
      var (out, rest, j) := Convert(fmt, DirectiveFrom(fmt, i, args));
      out + Format(fmt, j, rest)
  }

  // ----- the buffer -----

  /** What a buffer of `size` characters holds after `text` went through it: the part that fits, the rest as it was. */
  ghost predicate Holds(buf: seq<char>, was: seq<char>, size: nat, text: Text) {
    && size <= |buf| == |was|
    && forall i :: 0 <= i < |buf| ==> buf[i] == if i < |text| && i < size then text[i] else was[i]
  }

  /** The pair of pointers `str` and `end` of rt_vsnprintf. */
  class Sink {
    const buf: array<char>
    const size: nat              // end - buf
    var pos: nat                 // str - buf
    ghost var text: Text         // everything put so far, whether it fitted or not
    ghost const was: seq<char>   // the buffer at the beginning

    ghost predicate Valid()
      reads this, buf
    {
      pos == |text| && Holds(buf[..], was, size, text)
    }

    constructor (buf: array<char>, size: nat)
      requires size <= buf.Length
      ensures Valid() && this.buf == buf && this.size == size && pos == 0 && text == "" && was == buf[..]
    {
      this.buf := buf;
      this.size := size;
      pos := 0;
      text := "";
      was := buf[..];
    }

    /** `if (str < end) *str = c; ++ str;` */
    method Put(c: char)
      requires Valid()
      modifies `pos, `text, buf
      ensures Valid() && text == old(text) + [c]
    {
      if pos < size {
        buf[pos] := c;
      }
      pos := pos + 1;
      text := text + [c];
    }

    /** `while (n-- > 0)` putting c. */
    method Fill(c: char, n: int)
      requires Valid()
      modifies `pos, `text, buf
      ensures Valid() && text == old(text) + Repeat(c, n)
    {
      var k := n;
      ghost var put: nat := 0;
      while k > 0
        invariant Valid() && put <= Max(n, 0) && k == n - put
        invariant text == old(text) + Repeat(c, put)
      {
        Put(c);
        RepeatMore(c, put);
        put := put + 1;
        k := k - 1;
      }
    }

    /** `while (i-- > 0)` putting tmp[i]. */
    method PutReversed(tmp: array<char>, i: nat)
      requires Valid() && i <= tmp.Length && tmp != buf
      modifies `pos, `text, buf
      ensures Valid() && text == old(text) + Flip(old(tmp[..i]))
    {
      var k := i;
      ghost var all := Flip(tmp[..i]);
      while k > 0
        invariant Valid() && 0 <= k <= i == |all| && tmp[..i] == old(tmp[..i])
        invariant text == old(text) + all[..i - k]
      {
        k := k - 1;
        Put(tmp[k]);
        assert all[..i - k] == all[..i - k - 1] + [all[i - k - 1]];
      }
      assert all[..i] == all;
    }

    /** The digit loop of print_number, into tmp. */
    static method Digitise(n: nat, base: nat, large: bool) returns (tmp: array<char>, i: nat)
      requires n < WORD
      ensures fresh(tmp) && i <= tmp.Length == TMP && Flip(tmp[..i]) == Digits(n, base, large)
    {
      hide Reversed, Quotient, DigitChar;
      ReversedZero(base, large);
      tmp := new char[TMP];
      i := 0;
      if n == 0 {
        tmp[0] := '0';
        i := 1;
      } else {
        TmpHolds(n, base, large);
        var num := n;
        while num != 0
          invariant i + |Reversed(num, base, large)| <= 10
          invariant tmp[..i] + Reversed(num, base, large) == Reversed(n, base, large)
          decreases num
        {
          ghost var done := tmp[..i];
          ReversedStep(num, base, large);
          tmp[i] := DigitChar(Remainder(num, base), large);
          assert tmp[..i + 1] == done + [DigitChar(Remainder(num, base), large)];
          num := Quotient(num, base);
          i := i + 1;
        }
        assert tmp[..i] == Reversed(n, base, large);
      }
    }

    /** print_number up to the sign. */
    method PadBefore(s: int, sign: Text, flags: Flags) returns (size: int)
      requires Valid() && |sign| <= 1
      modifies `pos, `text, buf
      ensures Valid() && text == old(text) + Lead(flags, s - |sign|) + sign
      ensures if flags.left || flags.zeroPad then size == s - |sign| else size <= 0
    {
      hide Holds, Repeat;
      NoRepeat(' ');
      size := s;
      if !(flags.zeroPad || flags.left) {
        if sign != "" && size > 0 {
          size := size - 1;
        }
        Fill(' ', size);
        size := Min(size, 0) - 1;
      }
      if sign != "" {
        Put(sign[0]);
        size := size - 1;
      }
    }

    /** print_number between the sign and the digits. */
    method PadInside(s: int, flags: Flags) returns (size: int)
      requires Valid() && (!flags.left && !flags.zeroPad ==> s <= 0)
      modifies `pos, `text, buf
      ensures Valid() && text == old(text) + Mid(flags, s)
      ensures if flags.left then size == s else size <= 0
    {
      hide Holds, Repeat;
      NoRepeat(' ');
      size := s;
      if !flags.left {
        Fill(if flags.zeroPad then '0' else ' ', size);
        size := Min(size, 0) - 1;
      }
    }

    /** Leading zeros and, unless the precision is 0, the digits. */
    method PutDigits(tmp: array<char>, i: nat, wide: int, precision: int)
      requires Valid() && i <= tmp.Length && tmp != buf
      modifies `pos, `text, buf
      ensures Valid() && text == old(text) + (Repeat('0', wide - i) + if precision != 0 then Flip(old(tmp[..i]))
              else "")
    {
      hide Holds, Repeat, Flip;
      Fill('0', wide - i);
      if precision != 0 {
        PutReversed(tmp, i);
      }
    }

    /** print_number. */
    method PrintNumber(num: nat, base: nat, s: int, precision: int, flags: Flags)
      requires Valid() && num < WORD
      modifies `pos, `text, buf
      ensures Valid() && text == old(text) + Number(num, base, s, precision, flags)
    {
      hide Digits, Flip, Sign, Holds, Magnitude, Assembled;
      SignShort(num, flags);
      var tmp, i := Digitise(Magnitude(num, flags), base, flags.large);
      Assemble(Sign(num, flags), tmp, i, s, precision, flags);
    }

    /** print_number once the sign and the digits are known. */
    method Assemble(sign: Text, tmp: array<char>, i: nat, s: int, precision: int, flags: Flags)
      requires Valid() && |sign| <= 1 && i <= tmp.Length && tmp != buf
      modifies `pos, `text, buf
      ensures Valid() && text == old(text) + Assembled(sign, old(Flip(tmp[..i])), s, precision, flags)
    {
      hide Repeat, Flip, Holds, Lead, Mid, Tail;
      var wide := if i > precision then i else precision;
      ghost var pad := s - wide - |sign|;
      PadPlaces(flags, pad);
      var size := PadBefore(s - wide, sign, flags);
      size := PadInside(size, flags);
      PutDigits(tmp, i, wide, precision);
      Fill(' ', size);
      ghost var body := Repeat('0', wide - i) + if precision != 0 then old(Flip(tmp[..i])) else "";
      Joined(old(text), Lead(flags, pad), sign, Mid(flags, pad), body, Tail(flags, pad));
    }

    /** The %c case. */
    method PutChar(c: char, width: int, left: bool)
      requires Valid()
      modifies `pos, `text, buf
      ensures Valid() && text == old(text) + CharField(c, width, left)
    {
      hide Holds, Repeat;
      NoRepeat(' ');
      var fieldWidth := width;
      if !left {
        Fill(' ', fieldWidth - 1);
        fieldWidth := Min(fieldWidth - 1, 0);
      }
      Put(c);
      Fill(' ', fieldWidth - 1);
    }

    /** How much of the text %s prints. */
    static method Measure(s: CText, width: int, precision: int) returns (len: nat)
      ensures len == TextLength(s, width, precision)
    {
      len := 0;
      while len != width && At(s, len) != NUL
        invariant len <= |s| && (width >= 0 ==> len <= width)
        decreases |s| - len
      {
        len := len + 1;
      }
      if precision > 0 && len > precision {
        len := precision;
      }
    }

    /** The %s case. */
    method PutText(s: CText, width: int, precision: int, left: bool)
      requires Valid()
      modifies `pos, `text, buf
      ensures Valid() && text == old(text) + TextField(s, width, precision, left)
    {
      hide Holds, Repeat;
      NoRepeat(' ');
      var fieldWidth := width;
      var len := Measure(s, width, precision);
      if !left {
        Fill(' ', fieldWidth - len);
        fieldWidth := Min(fieldWidth, len) - 1;
      }
      ghost var t := text;
      for i := 0 to len
        invariant Valid() && text == t + s[..i]
      {
        Put(s[i]);
      }
      Fill(' ', fieldWidth - len);
    }

    /** The switch of rt_vsnprintf; returns the arguments left and where the format goes on. */
    method PutDirective(fmt: CText, d: Directive) returns (rest: seq<Arg>, at: nat)
      requires Valid() && d.at <= |fmt|
      modifies `pos, `text, buf
      ensures Valid() && text == old(text) + Convert(fmt, d).0 && rest == Convert(fmt, d).1 && at == Convert(fmt, d).2
    {
      hide Holds, Number, TextField, CharField;
      var c, n, width, flags := At(fmt, d.at), IntArg(d.args), d.width, d.flags;
      rest, at := Rest(d.args), d.at + 1;
      if d.at == |fmt| {
        Put('%');
        rest, at := d.args, d.at;
      } else if c == 'c' {
        PutChar((n % 256) as char, width, flags.left);
      } else if c == 's' {
        PutText(TextArg(d.args), width, d.precision, flags.left);
      } else if c == 'p' {
        if width == -1 {
          width := 8;
          flags := flags.(zeroPad := true);
        }
        PrintNumber(n, 16, width, d.precision, flags);
      } else if c == '%' {
        Put('%');
        rest := d.args;
      } else if c == 'o' || c == 'x' || c == 'X' || c == 'd' || c == 'i' || c == 'u' {
        var base := if c == 'o' then 8 else if c == 'x' || c == 'X' then 16 else 10;
        flags := flags.(large := flags.large || c == 'X', sign := flags.sign || c == 'd' || c == 'i');
        PrintNumber(Operand(n, d.qualifier, flags.sign), base, width, d.precision, flags);
      } else {
        Put('%');
        Put(c);
        assert old(text) + "%" + [c] == old(text) + ("%" + [c]);
        rest := d.args;
      }
    }

    /** The loop of rt_vsnprintf. */
    method PutFormat(fmt: CText, args: seq<Arg>)
      requires Valid()
      modifies `pos, `text, buf
      ensures Valid() && text == old(text) + Format(fmt, 0, args)
    {
      hide Holds, Convert, DirectiveFrom;
      var i, rest := 0, args;
      while i < |fmt|
        invariant 0 <= i <= |fmt| && Valid() && text + Format(fmt, i, rest) == old(text) + Format(fmt, 0, args)
        decreases |fmt| - i
      {
        ghost var t, more := text, rest;
        if fmt[i] != '%' {
          Put(fmt[i]);
          assert text + Format(fmt, i + 1, rest) == t + ([fmt[i]] + Format(fmt, i + 1, rest));
          i := i + 1;
        } else {
          var d := ReadDirective(fmt, i, rest);
          ghost var out := Convert(fmt, d).0;
          rest, i := PutDirective(fmt, d);
          assert text + Format(fmt, i, rest) == t + (out + Format(fmt, i, rest));
        }
      }
      assert text + "" == text;
    }
  }

  lemma Joined(t: Text, a: Text, b: Text, c: Text, d: Text, e: Text)
    ensures t + a + b + c + d + e == t + (a + b + c + d + e)
  {
  }

  /** Where the padding does not go, it is not counted any more. */
  lemma PadPlaces(f: Flags, pad: int)
    ensures !f.left && !f.zeroPad ==> forall n :: Mid(f, n) == Mid(f, pad)
    ensures forall n :: (if f.left then n == pad else n <= 0) ==> Repeat(' ', n) == Tail(f, pad)
  {
  }

  lemma SignShort(num: nat, f: Flags)
    ensures |Sign(num, f)| <= 1
  {
  }

  lemma NoRepeat(c: char)
    ensures forall n :: n <= 0 ==> Repeat(c, n) == ""
  {
  }

  /** The loop over the flag characters; i is the position of the `%`. */
  method ReadFlags(fmt: CText, i: nat) returns (flags: Flags, at: nat)
    requires i < |fmt|
    ensures (flags, at) == FlagsFrom(fmt, i + 1, NO_FLAGS)
  {
    flags, at := NO_FLAGS, i + 1;
    while true
      invariant i < at <= |fmt| && FlagsFrom(fmt, at, flags) == FlagsFrom(fmt, i + 1, NO_FLAGS)
      decreases |fmt| - at
    {
      var c := At(fmt, at);
      if c == '-' {
        flags := flags.(left := true);
      } else if c == '+' {
        flags := flags.(plus := true);
      } else if c == ' ' {
        flags := flags.(space := true);
      } else if c == '#' {
      } else if c == '0' {
        flags := flags.(zeroPad := true);
      } else {
        return;
      }
      at := at + 1;
    }
  }

  /** skip_atoi. */
  method ReadNumber(fmt: CText, i: nat) returns (n: nat, at: nat)
    requires i <= |fmt|
    ensures (n, at) == SkipAtoi(fmt, i, 0)
  {
    n, at := 0, i;
    while IsDigit(At(fmt, at))
      invariant i <= at <= |fmt| && SkipAtoi(fmt, at, n) == SkipAtoi(fmt, i, 0)
      decreases |fmt| - at
    {
      n := n * 10 + (fmt[at] as int - '0' as int);
      at := at + 1;
    }
  }

  /** Flags, width, precision and qualifier of the directive whose `%` is at i. */
  method ReadDirective(fmt: CText, i: nat, args: seq<Arg>) returns (d: Directive)
    requires i < |fmt|
    ensures d == DirectiveFrom(fmt, i, args)
  {
    hide FlagsFrom, SkipAtoi, Signed, IntArg;
    var flags, at := ReadFlags(fmt, i);
    d := Directive(flags, -1, -1, NUL, at, args);
    if IsDigit(At(fmt, at)) {
      var n, j := ReadNumber(fmt, at);
      d := d.(width := n, at := j);
    } else if At(fmt, at) == '*' {
      var w := Signed(IntArg(args));
      d := d.(at := at + 1, args := Rest(args));
      if w < 0 {
        w := -w;
        d := d.(flags := flags.(left := true));
      }
      d := d.(width := w);
    }
    d := ReadPrecision(fmt, d);
    if At(fmt, d.at) == 'h' || At(fmt, d.at) == 'l' {
      d := d.(qualifier := At(fmt, d.at), at := d.at + 1);
    }
  }

  method ReadPrecision(fmt: CText, d: Directive) returns (r: Directive)
    requires d.at <= |fmt| && d.precision == -1
    ensures r == PrecisionFrom(fmt, d)
  {
    hide SkipAtoi, Signed, IntArg;
    r := d;
    if At(fmt, d.at) == '.' {
      r := r.(at := d.at + 1);
      if IsDigit(At(fmt, r.at)) {
        var n, j := ReadNumber(fmt, r.at);
        r := r.(precision := n, at := j);
      } else if At(fmt, r.at) == '*' {
        r := r.(precision := Signed(IntArg(d.args)), at := r.at + 1, args := Rest(d.args));
      }
      if r.precision < 0 {
        r := r.(precision := 0);
      }
    }
  }

  /** rt_vsnprintf.  The returned length does not depend on the size; what is stored is the beginning of the
      unbounded output and a NUL, and nothing beyond. */
  method VsnPrintf(buf: array<char>, size: nat, fmt: CText, args: seq<Arg>) returns (len: nat)
    requires size <= buf.Length
    modifies buf
    ensures len == |Format(fmt, 0, args)|
    ensures size == 0 ==> buf[..] == old(buf[..])
    ensures size > 0 ==>
              var kept := if len < size then len else size - 1;
              buf[..kept] == Format(fmt, 0, args)[..kept] && buf[kept] == NUL && buf[kept + 1..] == old(buf[kept + 1..])
  {
    hide Holds, Format;
    var sink := new Sink(buf, size);
    sink.PutFormat(fmt, args);
    ghost var w, text := buf[..], Format(fmt, 0, args);
    assert sink.text == text;
    if size > 0 {
      if sink.pos < size {
        buf[sink.pos] := NUL;
      } else {
        buf[size - 1] := NUL;
      }
      Terminated(w, old(buf[..]), size, text);
    } else {
      Untouched(w, old(buf[..]), text);
    }
    len := sink.pos;
  }

  lemma Untouched(buf: seq<char>, was: seq<char>, text: Text)
    requires Holds(buf, was, 0, text)
    ensures buf == was
  {
  }

  /** The NUL goes behind the text, or over its last character that fitted. */
  lemma Terminated(buf: seq<char>, was: seq<char>, size: nat, text: Text)
    requires Holds(buf, was, size, text) && 0 < size
    ensures var kept := if |text| < size then |text| else size - 1;
            var z := buf[kept := NUL];
            z[..kept] == text[..kept] && z[kept] == NUL && z[kept + 1..] == was[kept + 1..]
  {
  }
}
