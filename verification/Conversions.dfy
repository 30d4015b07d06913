/** What the conversions of rt_vsnprintf (kservice.c) mean: how a specification is read, and which
    text each conversion character gives for its argument. */
module Conversions {
  import opened FormatText

  // ---- numbers ----

  predicate IsSigned(c: char) {
    c == 'd' || c == 'i'
  }

  predicate IsNumber(c: char) {
    IsSigned(c) || c == 'u' || c == 'x' || c == 'X' || c == 'p' || c == 'o'
  }

  /** The base in which the digits are printed: that of octal conversions is 16, too. */
  function BaseOf(c: char): nat {
    if IsSigned(c) || c == 'u' then 10 else 16
  }

  /** The number that an argument stands for: all of the word, or its low half after 'h', read as
      two's complement by a signed conversion. */
  function NumberOf(c: char, qualifier: char, word: nat): int {
    var size := if qualifier == 'h' && c != 'p' then 0x1_0000 else WORD;
    if IsSigned(c) && word % size >= size / 2 then word % size - size else word % size
  }

  function Absolute(n: int): nat {
    if n < 0 then -n else n
  }

  function SignText(c: char, n: int, f: Flags): string {
    if !IsSigned(c) then "" else if n < 0 then "-" else if f.plus then "+" else if f.space then " " else ""
  }

  predicate IsDigitOf(c: char, base: nat, upper: bool) {
    '0' <= c <= '9' || (base == 16 && (if upper then 'A' <= c <= 'F' else 'a' <= c <= 'f'))
  }

  /** The digits of n without leading zeros. */
  ghost predicate Numeral(s: string, n: nat, base: nat, upper: bool) {
    && s != "" && ReadBack(s, base) == n && (|s| > 1 ==> s[0] != '0')
    && forall c :: c in s ==> IsDigitOf(c, base, upper)
  }

  lemma {:induction false} DigitsNumeral(n: nat, hex: bool, large: bool)
    ensures Numeral(Digits(n, hex, large), n, if hex then 16 else 10, large)
    ensures n > 0 ==> Digits(n, hex, large)[0] != '0'
  {
    DigitsReadBack(n, hex, large);
    if Rest(n, hex) != 0 {
      DigitsNumeral(Rest(n, hex), hex, large);
    }
  }

  /** There is one such text only. */
  lemma {:induction false} NumeralUnique(s: string, t: string, n: nat, base: nat, upper: bool)
    requires base in {10, 16} && Numeral(s, n, base, upper) && Numeral(t, n, base, upper)
    ensures s == t
    decreases |s|
  {
    LastOf(s, n, base, upper);
    LastOf(t, n, base, upper);
    if n < base {
      OneDigit(s, n, base, upper);
      OneDigit(t, n, base, upper);
    } else {
      Shorter(s, n, base, upper);
      Shorter(t, n, base, upper);
      NumeralUnique(s[..|s| - 1], t[..|t| - 1], n / base, base, upper);
      assert s == s[..|s| - 1] + [s[|s| - 1]] && t == t[..|t| - 1] + [t[|t| - 1]];
    }
  }

  /** The last digit is determined. */
  lemma LastOf(s: string, n: nat, base: nat, upper: bool)
    requires base in {10, 16} && Numeral(s, n, base, upper)
    ensures n % base < 16 && s[|s| - 1] == Digit(n % base, upper) && ReadBack(s[..|s| - 1], base) == n / base
  {
    var (r, c) := (ReadBack(s[..|s| - 1], base), s[|s| - 1]);
    assert c in s && Value(c) < base && n == r * base + Value(c);
    assert n / base == r && n % base == Value(c);
  }

  lemma OneDigit(s: string, n: nat, base: nat, upper: bool)
    requires base in {10, 16} && Numeral(s, n, base, upper) && n < base
    ensures |s| == 1
  {
    LastOf(s, n, base, upper);
    if |s| > 1 {
      LeadingCounts(s[..|s| - 1], base, upper);
    }
  }

  lemma Shorter(s: string, n: nat, base: nat, upper: bool)
    requires base in {10, 16} && Numeral(s, n, base, upper) && n >= base
    ensures |s| > 1 && Numeral(s[..|s| - 1], n / base, base, upper)
  {
    LastOf(s, n, base, upper);
    assert n / base > 0 && s[..|s| - 1] != "";
    assert s[..|s| - 1][0] == s[0] && forall c :: c in s[..|s| - 1] ==> c in s;
  }

  /** Digits that do not begin with a zero are worth something. */
  lemma {:induction false} LeadingCounts(s: string, base: nat, upper: bool)
    requires base in {10, 16} && s != "" && s[0] != '0' && forall c :: c in s ==> IsDigitOf(c, base, upper)
    ensures ReadBack(s, base) > 0
    decreases |s|
  {
    assert s[0] in s;
    if |s| > 1 {
      LeadingCounts(s[..|s| - 1], base, upper);
    }
  }

  /** How a number is laid out: blanks, sign, zeros, digits, blanks.  Blanks come first unless the
      number goes to the left or is filled with zeros, and last only if it goes to the left; zeros
      make up the precision or fill the width. */
  ghost predicate LaidOut(text: string, sign: string, digits: string, width: int, precision: int, left: bool,
                          fill: bool, blanks: nat, zeros: nat, trailing: nat) {
    && text == Rep(' ', blanks) + sign + Rep('0', zeros) + (if precision == 0 then "" else digits) + Rep(' ', trailing)
    && (blanks > 0 ==> !left && !fill) && (trailing > 0 ==> left)
    && |digits| + zeros >= precision
    && (zeros > 0 ==> |digits| + zeros == precision || (fill && !left))
    && |text| == Max(width, |sign| + Max(|digits|, precision)) - if precision == 0 then |digits| else 0
  }

  /** An integer conversion prints its argument: the digits are those of its absolute value, in
      upper case for 'X' alone.  A precision of 0 suppresses them. */
  lemma NumberConversion(fmt: string, args: seq<Arg>, s: Spec)
    returns (blanks: nat, zeros: nat, digits: string, trailing: nat)
    requires s.at < |fmt| && IsNumber(fmt[s.at]) && !s.flags.sign && !s.flags.large
    ensures var (c, r) := (fmt[s.at], Convert(fmt, args, s));
      var n := NumberOf(c, s.qualifier, Word(args, s.used));
      var narrow := c == 'p' && s.width == -1;
      && Numeral(digits, Absolute(n), BaseOf(c), c == 'X')
      && LaidOut(r.text, SignText(c, n, s.flags), digits, if narrow then 8 else s.width, s.precision, s.flags.left,
           s.flags.zeropad || narrow, blanks, zeros, trailing)
      && r.next == s.at + 1 && r.used == s.used + 1
  {
    var (c, word, narrow) := (fmt[s.at], Word(args, s.used), fmt[s.at] == 'p' && s.width == -1);
    var num := if c == 'p' then word else NumOf(word, s.qualifier, IsSigned(c));
    var f := s.flags.(sign := IsSigned(c), large := c == 'X', zeropad := s.flags.zeropad || narrow);
    ConvertNumber(fmt, args, s, num, f);
    NumberIs(c, s.qualifier, word, f);
    blanks, zeros, digits, trailing := Layout(num, if c == 'o' then 8 else BaseOf(c), if narrow then 8 else s.width,
      s.precision, f);
  }

  lemma ConvertNumber(fmt: string, args: seq<Arg>, s: Spec, num: nat, f: Flags)
    requires s.at < |fmt| && IsNumber(fmt[s.at]) && !s.flags.sign && !s.flags.large && num < WORD
    requires num == if fmt[s.at] == 'p' then Word(args, s.used) else
      NumOf(Word(args, s.used), s.qualifier, IsSigned(fmt[s.at]))
    requires f == s.flags.(sign := IsSigned(fmt[s.at]), large := fmt[s.at] == 'X',
      zeropad := s.flags.zeropad || (fmt[s.at] == 'p' && s.width == -1))
    ensures Convert(fmt, args, s) == Piece(
      NumberText(num, if fmt[s.at] == 'o' then 8 else BaseOf(fmt[s.at]),
        if fmt[s.at] == 'p' && s.width == -1 then 8 else s.width, s.precision, f),
      s.at + 1, s.used + 1)
  {
    if IsSigned(fmt[s.at]) {
      ConvertSigned(fmt, args, s);
      assert f == s.flags.(sign := true);
    } else {
      ConvertUnsigned(fmt, args, s, f);
    }
  }

  lemma ConvertSigned(fmt: string, args: seq<Arg>, s: Spec)
    requires s.at < |fmt| && IsSigned(fmt[s.at])
    ensures Convert(fmt, args, s) == Piece(
      NumberText(NumOf(Word(args, s.used), s.qualifier, true), 10, s.width, s.precision, s.flags.(sign := true)),
      s.at + 1, s.used + 1)
  {
  }

  lemma ConvertUnsigned(fmt: string, args: seq<Arg>, s: Spec, f: Flags)
    requires s.at < |fmt| && IsNumber(fmt[s.at]) && !IsSigned(fmt[s.at]) && !s.flags.sign && !s.flags.large
    requires f == s.flags.(large := fmt[s.at] == 'X',
      zeropad := s.flags.zeropad || (fmt[s.at] == 'p' && s.width == -1))
    ensures var c := fmt[s.at];
      var num := if c == 'p' then Word(args, s.used) else NumOf(Word(args, s.used), s.qualifier, false);
      Convert(fmt, args, s) == Piece(
        NumberText(num, if c == 'o' then 8 else BaseOf(c), if c == 'p' && s.width == -1 then 8 else s.width,
          s.precision, f),
        s.at + 1, s.used + 1)
  {
    if fmt[s.at] == 'p' {
      ConvertPointer(fmt, args, s);
      assert f == s.flags.(zeropad := s.flags.zeropad || s.width == -1);
    } else if fmt[s.at] == 'X' {
      assert f == s.flags.(large := true);
    } else {
      assert f == s.flags;
    }
  }

  lemma ConvertPointer(fmt: string, args: seq<Arg>, s: Spec)
    requires s.at < |fmt| && fmt[s.at] == 'p'
    ensures Convert(fmt, args, s) == Piece(
      NumberText(Word(args, s.used), 16, if s.width == -1 then 8 else s.width, s.precision,
        s.flags.(zeropad := s.flags.zeropad || s.width == -1)),
      s.at + 1, s.used + 1)
  {
    assert s.width != -1 ==> s.flags.(zeropad := s.flags.zeropad) == s.flags;
  }

  /** The number and its sign are what print_number makes of the word it is given. */
  lemma NumberIs(c: char, qualifier: char, word: nat, f: Flags)
    requires word < WORD && IsNumber(c) && f.sign == IsSigned(c)
    ensures var num := if c == 'p' then word else NumOf(word, qualifier, IsSigned(c));
      var n := NumberOf(c, qualifier, word);
      Magnitude(num, f) == Absolute(n) && SignOf(num, f) == SignText(c, n, f)
  {
  }

  /** print_number lays the number out. */
  lemma Layout(num: nat, base: nat, width: int, precision: int, f: Flags)
    returns (blanks: nat, zeros: nat, digits: string, trailing: nat)
    requires num < WORD && base in {8, 10, 16}
    ensures Numeral(digits, Magnitude(num, f), if base == 10 then 10 else 16, f.large)
    ensures LaidOut(NumberText(num, base, width, precision, f), SignOf(num, f), digits, width, precision, f.left,
      f.zeropad, blanks, zeros, trailing)
  {
    digits := Digits(Magnitude(num, f), base != 10, f.large);
    DigitsNumeral(Magnitude(num, f), base != 10, f.large);
    blanks, zeros, trailing := Arrange(digits, SignOf(num, f), width, precision, f);
  }

  lemma Arrange(digits: string, sign: string, width: int, precision: int, f: Flags)
    returns (blanks: nat, zeros: nat, trailing: nat)
    requires digits != "" && |sign| <= 1
    ensures LaidOut(
      NumberBefore(|digits|, sign, width, precision, f) + (if precision == 0 then "" else digits) +
        NumberAfter(|digits|, sign, width, precision, f),
      sign, digits, width, precision, f.left, f.zeropad, blanks, zeros, trailing)
  {
    var room := width - Max(|digits|, precision);
    blanks, trailing := Max(Blanks(room, sign, f), 0), Max(Trail(room, sign, f), 0);
    zeros := Max(Fill(room, sign, f), 0) + Max(precision - |digits|, 0);
    TextIs(digits, sign, width, precision, f, blanks, zeros, trailing);
    Lengths(|digits|, sign, width, precision, f, blanks, zeros, trailing);
  }

  lemma TextIs(digits: string, sign: string, width: int, precision: int, f: Flags, blanks: nat, zeros: nat,
               trailing: nat)
    requires var room := width - Max(|digits|, precision);
      && blanks == Max(Blanks(room, sign, f), 0) && trailing == Max(Trail(room, sign, f), 0)
      && zeros == Max(Fill(room, sign, f), 0) + Max(precision - |digits|, 0)
    ensures
      NumberBefore(|digits|, sign, width, precision, f) + (if precision == 0 then "" else digits) +
        NumberAfter(|digits|, sign, width, precision, f) ==
      Rep(' ', blanks) + sign + Rep('0', zeros) + (if precision == 0 then "" else digits) + Rep(' ', trailing)
  {
    BeforeIs(|digits|, sign, width, precision, f, blanks, zeros);
    RepNothing(' ', Trail(width - Max(|digits|, precision), sign, f));
  }

  lemma BeforeIs(count: nat, sign: string, width: int, precision: int, f: Flags, blanks: nat, zeros: nat)
    requires var room := width - Max(count, precision);
      && blanks == Max(Blanks(room, sign, f), 0)
      && zeros == Max(Fill(room, sign, f), 0) + Max(precision - count, 0)
    ensures NumberBefore(count, sign, width, precision, f) == Rep(' ', blanks) + sign + Rep('0', zeros)
  {
    var room := width - Max(count, precision);
    RepSum('0', Max(Fill(room, sign, f), 0), Max(precision - count, 0));
    RepNothing(' ', Blanks(room, sign, f));
    RepNothing('0', Fill(room, sign, f));
    RepNothing('0', precision - count);
  }

  lemma Lengths(count: nat, sign: string, width: int, precision: int, f: Flags, blanks: nat, zeros: nat, trailing: nat)
    requires |sign| <= 1 && count > 0
    requires var room := width - Max(count, precision);
      && blanks == Max(Blanks(room, sign, f), 0) && trailing == Max(Trail(room, sign, f), 0)
      && zeros == Max(Fill(room, sign, f), 0) + Max(precision - count, 0)
    ensures blanks + |sign| + zeros + count + trailing == Max(width, |sign| + Max(count, precision))
    ensures zeros > 0 ==> count + zeros == precision || (f.zeropad && !f.left)
    ensures blanks > 0 ==> !f.left && !f.zeropad
    ensures trailing > 0 ==> f.left
  {
  }

  lemma RepNothing(c: char, n: int)
    ensures Rep(c, n) == Rep(c, Max(n, 0))
  {
  }

  lemma {:induction false} RepSum(c: char, m: nat, n: nat)
    ensures Rep(c, m + n) == Rep(c, m) + Rep(c, n)
    decreases n
  {
    if n > 0 {
      RepSum(c, m, n - 1);
    }
  }

  // ---- characters and strings ----

  /** Text of a certain width: blanks before it, or behind it if it goes to the left. */
  ghost predicate Padded(text: string, inner: string, width: int, left: bool) {
    exists blanks: nat ::
      && text == (if left then inner + Rep(' ', blanks) else Rep(' ', blanks) + inner)
      && |text| == Max(width, |inner|)
  }

  lemma CharConversion(fmt: string, args: seq<Arg>, s: Spec)
    requires s.at < |fmt| && fmt[s.at] == 'c'
    ensures var r := Convert(fmt, args, s);
      && Padded(r.text, [(Word(args, s.used) % 256) as char], s.width, s.flags.left)
      && r.next == s.at + 1 && r.used == s.used + 1
  {
    var blanks: nat := Max(s.width - 1, 0);
    RepNothing(' ', s.width - 1);
    assert |Rep(' ', blanks)| == blanks;
  }

  /** A string, as much of it as its precision allows; a precision of 0 allows all. */
  lemma StringConversion(fmt: string, args: seq<Arg>, s: Spec) returns (kept: string)
    requires s.at < |fmt| && fmt[s.at] == 's'
    ensures var (r, whole) := (Convert(fmt, args, s), Text(args, s.used));
      && kept <= whole && (|kept| == |whole| || (|kept| < |whole| && |kept| == s.precision > 0))
      && (s.precision > 0 ==> |kept| <= s.precision)
      && Padded(r.text, kept, s.width, s.flags.left) && r.next == s.at + 1 && r.used == s.used + 1
  {
    var whole := Text(args, s.used);
    var len := if 0 < s.precision < |whole| then s.precision else |whole|;
    kept := whole[..len];
    var blanks: nat := Max(s.width - len, 0);
    RepNothing(' ', s.width - len);
    assert |Rep(' ', blanks)| == blanks;
  }

  /** Every other character is printed behind a percent sign, but "%%" gives one of them; no
      argument is used. */
  lemma OtherConversion(fmt: string, args: seq<Arg>, s: Spec)
    requires s.at <= |fmt| && (s.at < |fmt| ==> !IsNumber(fmt[s.at]) && fmt[s.at] !in {'c', 's'} && fmt[s.at] != '\0')
    ensures var r := Convert(fmt, args, s);
      && r.used == s.used
      && r.text == (if s.at == |fmt| || fmt[s.at] == '%' then "%" else "%" + [fmt[s.at]])
      && r.next == if s.at == |fmt| then s.at else s.at + 1
  {
  }

  // ---- how a specification is read ----

  predicate AllFlags(t: string) {
    forall k :: 0 <= k < |t| ==> t[k] in {'-', '+', ' ', '#', '0'}
  }

  predicate AllDigits(t: string) {
    forall k :: 0 <= k < |t| ==> '0' <= t[k] <= '9'
  }

  /** A width or the digits of a precision: nothing, an asterisk, or a number. */
  predicate IsSize(t: string) {
    t == "" || t == "*" || AllDigits(t)
  }

  predicate IsConversion(c: char) {
    IsNumber(c) || c in {'c', 's', '%'}
  }

  /** `part` stands in the format at position i. */
  ghost predicate Part(fmt: string, i: nat, part: string) {
    i + |part| <= |fmt| && fmt[i..i + |part|] == part && (part != "" ==> fmt[i] == part[0])
  }

  /** '%', flags, width, precision, qualifier, and a conversion character behind them. */
  ghost predicate Spelled(fmt: string, i: nat, flags: string, width: string, precision: string, qualifier: string,
                          end: nat) {
    && i + 1 + |flags| + |width| + |precision| + |qualifier| == end < |fmt| && fmt[i] == '%'
    && Part(fmt, i + 1, flags) && Part(fmt, i + 1 + |flags|, width) && Part(fmt, i + 1 + |flags| + |width|, precision)
    && Part(fmt, i + 1 + |flags| + |width| + |precision|, qualifier)
    && AllFlags(flags) && IsSize(width) && (width != "" ==> width[0] != '0')
    && (precision == "" || (precision[0] == '.' && IsSize(precision[1..])))
    && qualifier in {"", "h", "l"} && IsConversion(fmt[end])
  }

  /** The signed word that an asterisk stands for. */
  function Given(args: seq<Arg>, k: nat): int {
    var w := Word(args, k);
    if w >= 0x8000_0000 then w - 0x1_0000_0000 else w
  }

  /** What the parts mean: each flag is on exactly if its character is there; a width is a number, or
      that of an argument, which goes to the left if it is negative; so is a precision, which is 0
      after a mere point and never below. */
  function Meant(flags: string, width: string, precision: string, qualifier: string, end: nat, args: seq<Arg>,
                 k: nat): Spec
  {
    var used := if width == "*" then k + 1 else k;
    Spec(
      Flags('0' in flags, false, '+' in flags, ' ' in flags,
        '-' in flags || (width == "*" && Given(args, k) < 0), false),
      if width == "" then -1 else if width == "*" then Absolute(Given(args, k)) else ReadBack(width, 10),
      if precision == "" then -1
      else if precision == ".*" then Max(Given(args, used), 0)
      else ReadBack(precision[1..], 10),
      if qualifier == "" then '\0' else qualifier[0],
      end,
      if precision == ".*" then used + 1 else used)
  }

  /** A specification is read as what its parts mean. */
  lemma SpecIs(fmt: string, i: nat, flags: string, width: string, precision: string, qualifier: string, end: nat,
               args: seq<Arg>, k: nat)
    requires Spelled(fmt, i, flags, width, precision, qualifier, end)
    ensures Parse(fmt, i, args, k) == Meant(flags, width, precision, qualifier, end, args, k)
  {
    var a := i + 1;
    var b := a + |flags|;
    var c := b + |width|;
    var d := c + |precision|;
    FlagsAndWidth(fmt, a, b, c, flags, width, args, k);
    var s := Meant(flags, width, "", "", c, args, k);
    PrecisionRead(fmt, d, precision, args, s);
    var t := ParsePrecision(fmt, args, s);
    PrecisionMeant(flags, width, precision, c, d, args, k);
    QualifierMeant(fmt, flags, width, precision, qualifier, d, end, args, k);
  }

  lemma FlagsAndWidth(fmt: string, a: nat, b: nat, c: nat, flags: string, width: string, args: seq<Arg>, k: nat)
    requires a <= b <= c < |fmt| && fmt[a..b] == flags && fmt[b..c] == width
    requires AllFlags(flags) && AddFlag(fmt[b], NO_FLAGS).None? && IsSize(width)
    requires !IsDigit(fmt[c]) && (width == "" ==> fmt[c] != '*')
    ensures ParseFlags(fmt, a, NO_FLAGS).1 == b
    ensures ParseWidth(fmt, b, args, k, ParseFlags(fmt, a, NO_FLAGS).0) == Meant(flags, width, "", "", c, args, k)
  {
    NoneIsNone(fmt[b], NO_FLAGS);
    FlagsRead(fmt, a, b, NO_FLAGS);
    WidthRead(fmt, b, c, width, args, k, Gathered(NO_FLAGS, flags));
  }

  /** Which characters are flags does not depend on the flags there are. */
  lemma NoneIsNone(c: char, f: Flags)
    requires AddFlag(c, f).None?
    ensures forall g :: AddFlag(c, g).None?
  {
  }

  lemma PrecisionMeant(flags: string, width: string, precision: string, c: nat, d: nat, args: seq<Arg>, k: nat)
    requires precision == "" ==> c == d
    ensures var s := Meant(flags, width, "", "", c, args, k);
      Meant(flags, width, precision, "", d, args, k) ==
      if precision == "" then s
      else if precision == ".*" then s.(precision := Max(Given(args, s.used), 0), at := d, used := s.used + 1)
      else s.(precision := ReadBack(precision[1..], 10), at := d)
  {
  }

  lemma QualifierMeant(fmt: string, flags: string, width: string, precision: string, qualifier: string, d: nat,
                       end: nat, args: seq<Arg>, k: nat)
    requires d + |qualifier| == end < |fmt| && qualifier in {"", "h", "l"} && IsConversion(fmt[end])
    requires |qualifier| > 0 ==> fmt[d] == qualifier[0]
    ensures ParseQualifier(fmt, Meant(flags, width, precision, "", d, args, k)) ==
      Meant(flags, width, precision, qualifier, end, args, k)
  {
  }

  lemma {:induction false} FlagsRead(fmt: string, i: nat, end: nat, f: Flags)
    requires i <= end < |fmt| && AllFlags(fmt[i..end]) && AddFlag(fmt[end], f).None?
    ensures var (r, t) := (ParseFlags(fmt, i, f), fmt[i..end]);
      r == (Gathered(f, t), end)
    decreases end - i
  {
    if i < end {
      var (t, u) := (fmt[i..end], fmt[i + 1..end]);
      assert t == [fmt[i]] + u && t[0] == fmt[i];
      AllTail(t, u);
      FlagsRead(fmt, i + 1, end, AddFlag(fmt[i], f).value);
      GatheredStep(f, fmt[i], u, t);
    } else {
      assert fmt[i..end] == "";
    }
  }

  /** Every flag of t is on, too. */
  function Gathered(f: Flags, t: string): Flags {
    f.(left := f.left || '-' in t, plus := f.plus || '+' in t, space := f.space || ' ' in t,
       zeropad := f.zeropad || '0' in t)
  }

  lemma GatheredStep(f: Flags, c: char, u: string, t: string)
    requires t == [c] + u && AddFlag(c, f).Some?
    ensures Gathered(AddFlag(c, f).value, u) == Gathered(f, t)
  {
    InFront('-', c, u, t);
    InFront('+', c, u, t);
    InFront(' ', c, u, t);
    InFront('0', c, u, t);
  }

  lemma InFront(c: char, first: char, u: string, t: string)
    requires t == [first] + u
    ensures c in t <==> c == first || c in u
  {
  }

  lemma AllTail(t: string, u: string)
    requires t != "" && t[1..] == u
    ensures AllFlags(t) ==> AllFlags(u)
    ensures AllDigits(t) ==> AllDigits(u)
  {
    assert forall k {:trigger u[k]} :: 0 <= k < |u| ==> u[k] == t[k + 1];
  }

  /** The digits from position i to the next character that is none are a number. */
  lemma {:induction false} NumberRead(fmt: string, from: nat, i: nat, end: nat, n: nat)
    requires from <= i <= end < |fmt| && AllDigits(fmt[i..end]) && !IsDigit(fmt[end])
    requires n == ReadBack(fmt[from..i], 10)
    ensures ParseNumber(fmt, i, n) == (ReadBack(fmt[from..end], 10), end)
    decreases end - i
  {
    if i < end {
      assert fmt[i..end][0] == fmt[i] && fmt[i] in fmt[i..end];
      assert fmt[from..i + 1][..i - from] == fmt[from..i] && fmt[from..i + 1][i - from] == fmt[i];
      assert Value(fmt[i]) == (fmt[i] - '0') as nat;
      AllTail(fmt[i..end], fmt[i + 1..end]);
      NumberRead(fmt, from, i + 1, end, n * 10 + (fmt[i] - '0') as nat);
    }
  }

  lemma WidthRead(fmt: string, i: nat, end: nat, width: string, args: seq<Arg>, k: nat, f: Flags)
    requires i <= end < |fmt| && fmt[i..end] == width && IsSize(width)
    requires !IsDigit(fmt[end]) && (width == "" ==> fmt[end] != '*')
    ensures ParseWidth(fmt, i, args, k, f) ==
      if width == "" then Spec(f, -1, -1, '\0', end, k)
      else if width == "*" then
        Spec(f.(left := f.left || Given(args, k) < 0), Absolute(Given(args, k)), -1, '\0', end, k + 1)
      else Spec(f, ReadBack(width, 10), -1, '\0', end, k)
  {
    if width != "" {
      assert width[0] == fmt[i] && width[0] in width;
      if width != "*" {
        assert fmt[i..i] == "";
        NumberRead(fmt, i, i, end, 0);
      }
    }
  }

  lemma PrecisionRead(fmt: string, end: nat, precision: string, args: seq<Arg>, s: Spec)
    requires s.at + |precision| == end < |fmt| && fmt[s.at..end] == precision && s.precision == -1
    requires precision == "" || (precision[0] == '.' && IsSize(precision[1..]))
    requires !IsDigit(fmt[end]) && (precision == "" ==> fmt[end] != '.') && (precision == "." ==> fmt[end] != '*')
    ensures ParsePrecision(fmt, args, s) ==
      if precision == "" then s
      else if precision == ".*" then s.(precision := Max(Given(args, s.used), 0), at := end, used := s.used + 1)
      else s.(precision := ReadBack(precision[1..], 10), at := end)
  {
    if precision != "" {
      var (i, rest) := (s.at + 1, precision[1..]);
      assert precision[0] == fmt[s.at] && fmt[i..end] == rest;
      if rest != "" {
        assert rest[0] == fmt[i] && rest[0] in rest && precision == ['.'] + rest;
        if rest != "*" {
          assert fmt[i..i] == "";
          NumberRead(fmt, i, i, end, 0);
        }
      }
    }
  }

  // ---- the whole output ----

  /** Text without a percent sign is printed as it is. */
  lemma {:induction false} PlainText(fmt: string, i: nat, end: nat, args: seq<Arg>, k: nat)
    requires i <= end <= |fmt| && '%' !in fmt[i..end]
    ensures Formatted(fmt, i, args, k) == fmt[i..end] + Formatted(fmt, end, args, k)
    decreases end - i
  {
    if i < end {
      assert fmt[i..end][0] == fmt[i] && fmt[i] in fmt[i..end];
      assert fmt[i..end] == [fmt[i]] + fmt[i + 1..end];
      PlainText(fmt, i + 1, end, args, k);
    }
  }

  /** The word 0xfffffffb is -5 to "%d" and 4294967291 to "%u". */
  lemma MinusFive(args: seq<Arg>)
    requires args == [Arg(0xffff_fffb, None)]
    ensures Formatted("%d", 0, args, 0) == "-5"
    ensures NumberOf('u', '\0', 0xffff_fffb) == 4294967291
  {
    var s := Spec(NO_FLAGS, -1, -1, '\0', 1, 0);
    FivePiece(args, s);
    assert PieceAt("%d", 0, args, 0) == Piece("-5", 2, 1) && Formatted("%d", 2, args, 1) == "";
  }

  lemma FivePiece(args: seq<Arg>, s: Spec)
    requires args == [Arg(0xffff_fffb, None)] && s == Spec(NO_FLAGS, -1, -1, '\0', 1, 0)
    ensures Parse("%d", 0, args, 0) == s && Convert("%d", args, s) == Piece("-5", 2, 1)
  {
    PlainSpec("%d", args);
    ConvertSigned("%d", args, s);
    assert NumOf(Word(args, 0), '\0', true) == 0xffff_fffb;
    FiveText();
  }

  lemma PlainSpec(fmt: string, args: seq<Arg>)
    requires fmt == "%d"
    ensures Parse(fmt, 0, args, 0) == Spec(NO_FLAGS, -1, -1, '\0', 1, 0)
  {
    assert fmt[1] == 'd';
    assert ParseFlags(fmt, 1, NO_FLAGS) == (NO_FLAGS, 1);
  }

  lemma FiveText()
    ensures NumberText(0xffff_fffb, 10, -1, -1, NO_FLAGS.(sign := true)) == "-5"
  {
    assert Digits(5, false, false) == ['5'];
  }

  /** What a format prints is plain text, a conversion, and what the rest prints. */
  lemma OneConversion(fmt: string, i: nat, at: nat, args: seq<Arg>, k: nat)
    requires i <= at < |fmt| && '%' !in fmt[i..at] && fmt[at] == '%'
    ensures var r := Convert(fmt, args, Parse(fmt, at, args, k));
      Formatted(fmt, i, args, k) == fmt[i..at] + r.text + Formatted(fmt, r.next, args, r.used)
  {
    PlainText(fmt, i, at, args, k);
  }
}
