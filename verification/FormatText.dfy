/** What rt_vsnprintf (kservice.c) is to print, whatever the size of the buffer: the text of a
    format with its arguments.  RT_PRINTF_PRECISION is on; RT_PRINTF_LONGLONG and
    RT_PRINTF_SPECIAL are off, as in the source. */
module FormatText {
  const WORD: nat := 0x1_0000_0000
  const NEGATIVE: nat := 0x8000_0000

  datatype Option<T> = None | Some(value: T)

  /** A variadic argument, as the word and as the string that va_arg may take it for. */
  datatype Arg = Arg(word: nat, text: Option<string>)

  function Word(args: seq<Arg>, k: nat): (r: nat)
    ensures r < WORD
  {
    if k < |args| then args[k].word % WORD else 0
  }

  function Signed(word: nat): int {
    if word >= NEGATIVE then word - WORD else word
  }

  function Text(args: seq<Arg>, k: nat): string {
    if k < |args| && args[k].text.Some? then args[k].text.value else "(NULL)"
  }

  datatype Flags = Flags(zeropad: bool, sign: bool, plus: bool, space: bool, left: bool, large: bool)

  const NO_FLAGS := Flags(false, false, false, false, false, false)

  /** n times c. */
  function Rep(c: char, n: int): (r: string)
    ensures |r| == if n > 0 then n else 0
    decreases n
  {
    if n <= 0 then "" else Rep(c, n - 1) + [c]
  }

  const SMALL := "0123456789abcdef"
  const LARGE := "0123456789ABCDEF"

  function Digit(d: nat, large: bool): char
    requires d < 16
  {
    if large then LARGE[d] else SMALL[d]
  }

  /** `divide`: a last digit and the rest.  It knows only base 10 and base 16, so octal comes out
      as hexadecimal. */
  function LastDigit(n: nat, hex: bool): (r: nat)
    ensures r < 16
  {
    if hex then n % 16 else n % 10
  }

  function Rest(n: nat, hex: bool): (r: nat)
    ensures n > 0 ==> r < n
  {
    if hex then n / 16 else n / 10
  }

  /** The digits of n, most significant first. */
  function Digits(n: nat, hex: bool, large: bool): (r: string)
    ensures |r| > 0
  {
    if Rest(n, hex) == 0 then [Digit(LastDigit(n, hex), large)] else
      Digits(Rest(n, hex), hex, large) + [Digit(LastDigit(n, hex), large)]
  }

  /** What a digit stands for. */
  function Value(c: char): nat {
    if '0' <= c <= '9' then (c - '0') as nat
    else if 'a' <= c <= 'f' then (c - 'a') as nat + 10
    else if 'A' <= c <= 'F' then (c - 'A') as nat + 10
    else 0
  }

  function ReadBack(s: string, base: nat): nat {
    if s == "" then 0 else ReadBack(s[..|s| - 1], base) * base + Value(s[|s| - 1])
  }

  lemma DigitValue(d: nat, large: bool)
    requires d < 16
    ensures Value(Digit(d, large)) == d
  {
  }

  /** The digits read back to the number. */
  lemma {:induction false} DigitsReadBack(n: nat, hex: bool, large: bool)
    ensures ReadBack(Digits(n, hex, large), if hex then 16 else 10) == n
  {
    var last, rest := Digit(LastDigit(n, hex), large), Rest(n, hex);
    DigitValue(LastDigit(n, hex), large);
    if rest == 0 {
      assert [last][..0] == "";
    } else {
      DigitsReadBack(rest, hex, large);
      assert (Digits(rest, hex, large) + [last])[..|Digits(rest, hex, large)|] == Digits(rest, hex, large);
    }
  }

  predicate Octal(s: string) {
    forall c :: c in s ==> '0' <= c <= '7'
  }

  /** What an octal conversion prints, the digits of base 16, is octal exactly for the numbers of
      one octal digit: 8 is the first that is not. */
  lemma OctalIff(n: nat, large: bool)
    ensures Octal(Digits(n, true, large)) && ReadBack(Digits(n, true, large), 8) == n <==> n < 8
  {
    var s := Digits(n, true, large);
    if n < 16 {
      assert s == [Digit(n, large)] && s[..0] == "";
      DigitValue(n, large);
      assert Octal(s) <==> n < 8 by {
        assert s[0] in s;
      }
    } else {
      ReadsLess(n, large);
    }
  }

  lemma {:induction false} ReadsLess(n: nat, large: bool)
    ensures ReadBack(Digits(n, true, large), 8) <= n
    ensures n >= 16 ==> ReadBack(Digits(n, true, large), 8) < n
  {
    var last, rest := Digit(n % 16, large), n / 16;
    DigitValue(n % 16, large);
    if rest == 0 {
      assert [last][..0] == "";
    } else {
      ReadsLess(rest, large);
      assert (Digits(rest, true, large) + [last])[..|Digits(rest, true, large)|] == Digits(rest, true, large);
    }
  }

  /** Sign and magnitude that print_number makes of a word. */
  function SignOf(num: nat, f: Flags): string {
    if !f.sign then "" else if num >= NEGATIVE then "-" else if f.plus then "+" else if f.space then " " else ""
  }

  function Magnitude(num: nat, f: Flags): nat
    requires num < WORD
  {
    if f.sign && num >= NEGATIVE then WORD - num else num
  }

  function Max(a: int, b: int): int {
    if a > b then a else b
  }

  /** print_number: how many blanks come first and how many zeros fill up behind the sign; `room`
      is what the digits leave of the width. */
  function Blanks(room: int, sign: string, f: Flags): int {
    if f.left || f.zeropad then 0 else if room > 0 then room - |sign| else room
  }

  function Fill(room: int, sign: string, f: Flags): int {
    if f.zeropad && !f.left then room - |sign| else 0
  }

  function Trail(room: int, sign: string, f: Flags): int {
    if f.left then room - |sign| else 0
  }

  function NumberBefore(count: nat, sign: string, width: int, precision: int, f: Flags): string {
    var room := width - Max(count, precision);
    Rep(' ', Blanks(room, sign, f)) + sign + Rep('0', Fill(room, sign, f)) + Rep('0', precision - count)
  }

  function NumberAfter(count: nat, sign: string, width: int, precision: int, f: Flags): string {
    Rep(' ', Trail(width - Max(count, precision), sign, f))
  }

  /** A precision of 0 suppresses the digits altogether. */
  function NumberText(num: nat, base: nat, width: int, precision: int, f: Flags): string
    requires num < WORD
  {
    var digits := Digits(Magnitude(num, f), base != 10, f.large);
    var sign := SignOf(num, f);
    NumberBefore(|digits|, sign, width, precision, f) + (if precision == 0 then "" else digits) +
      NumberAfter(|digits|, sign, width, precision, f)
  }

  function CharText(c: char, width: int, left: bool): string {
    if left then [c] + Rep(' ', width - 1) else Rep(' ', width - 1) + [c]
  }

  /** A precision above 0 bounds the characters taken from the string. */
  function StringText(s: string, width: int, precision: int, left: bool): string {
    var len := if 0 < precision < |s| then precision else |s|;
    if left then s[..len] + Rep(' ', width - len) else Rep(' ', width - len) + s[..len]
  }

  /** The character at position i of a C string. */
  function At(fmt: string, i: nat): char {
    if i < |fmt| then fmt[i] else '\0'
  }

  predicate IsDigit(c: char) {
    '0' <= c <= '9'
  }

  function AddFlag(c: char, f: Flags): Option<Flags> {
    if c == '-' then Some(f.(left := true))
    else if c == '+' then Some(f.(plus := true))
    else if c == ' ' then Some(f.(space := true))
    else if c == '#' then Some(f)
    else if c == '0' then Some(f.(zeropad := true))
    else None
  }

  /** The flags from position i on, and where they end. */
  function ParseFlags(fmt: string, i: nat, f: Flags): (r: (Flags, nat))
    ensures r.1 >= i && (i <= |fmt| ==> r.1 <= |fmt|)
    decreases |fmt| - i
  {
    if i < |fmt| && AddFlag(fmt[i], f).Some? then ParseFlags(fmt, i + 1, AddFlag(fmt[i], f).value) else (f, i)
  }

  /** The decimal number from position i on, added to n, and where it ends. */
  function ParseNumber(fmt: string, i: nat, n: nat): (r: (nat, nat))
    ensures r.1 >= i && (i <= |fmt| ==> r.1 <= |fmt|)
    decreases |fmt| - i
  {
    if i < |fmt| && IsDigit(fmt[i]) then ParseNumber(fmt, i + 1, n * 10 + (fmt[i] - '0') as nat) else (n, i)
  }

  /** A conversion specification: its parts, the position of the conversion character and the
      number of arguments used before it. */
  datatype Spec = Spec(flags: Flags, width: int, precision: int, qualifier: char, at: nat, used: nat)

  function ParseWidth(fmt: string, i: nat, args: seq<Arg>, k: nat, f: Flags): (r: Spec)
    ensures r.at >= i && (i <= |fmt| ==> r.at <= |fmt|)
  {
    if IsDigit(At(fmt, i)) then
      var n := ParseNumber(fmt, i, 0);
      Spec(f, n.0, -1, '\0', n.1, k)
    else if At(fmt, i) == '*' then
      var w := Signed(Word(args, k));
      if w < 0 then Spec(f.(left := true), -w, -1, '\0', i + 1, k + 1) else Spec(f, w, -1, '\0', i + 1, k + 1)
    else Spec(f, -1, -1, '\0', i, k)
  }

  function ParsePrecision(fmt: string, args: seq<Arg>, s: Spec): (r: Spec)
    ensures r.at >= s.at && (s.at <= |fmt| ==> r.at <= |fmt|)
  {
    if At(fmt, s.at) != '.' then s
    else if IsDigit(At(fmt, s.at + 1)) then
      var n := ParseNumber(fmt, s.at + 1, 0);
      s.(precision := n.0, at := n.1)
    else if At(fmt, s.at + 1) == '*' then
      s.(precision := Max(Signed(Word(args, s.used)), 0), at := s.at + 2, used := s.used + 1)
    else s.(precision := 0, at := s.at + 1)
  }

  function ParseQualifier(fmt: string, s: Spec): (r: Spec)
    ensures r.at >= s.at && (s.at <= |fmt| ==> r.at <= |fmt|)
  {
    if At(fmt, s.at) == 'h' || At(fmt, s.at) == 'l' then s.(qualifier := At(fmt, s.at), at := s.at + 1) else s
  }

  /** Everything between the '%' at position i and the conversion character. */
  function Parse(fmt: string, i: nat, args: seq<Arg>, k: nat): (r: Spec)
    requires i < |fmt|
    ensures i < r.at <= |fmt|
  {
    var f := ParseFlags(fmt, i + 1, NO_FLAGS);
    ParseQualifier(fmt, ParsePrecision(fmt, args, ParseWidth(fmt, f.1, args, k, f.0)))
  }

  /** The word an integer conversion prints. */
  function NumOf(word: nat, qualifier: char, sign: bool): (r: nat)
    requires word < WORD
    ensures r < WORD
  {
    if qualifier == 'h' then
      var v := word % 0x10000;
      if sign && v >= 0x8000 then WORD - 0x10000 + v else v
    else word
  }

  /** The text of one conversion, and the position and the arguments behind it. */
  datatype Piece = Piece(text: string, next: nat, used: nat)

  function Convert(fmt: string, args: seq<Arg>, s: Spec): (r: Piece)
    requires s.at <= |fmt|
    ensures s.at <= r.next <= |fmt| && (s.at < |fmt| ==> r.next > s.at)
  {
    var word := Word(args, s.used);
    var next, used := s.at + 1, s.used + 1;
    var (f, q) := (s.flags, s.qualifier);
    match At(fmt, s.at)
    case 'c' => Piece(CharText((word % 256) as char, s.width, f.left), next, used)
    case 's' => Piece(StringText(Text(args, s.used), s.width, s.precision, f.left), next, used)
    case 'p' =>
      if s.width == -1 then Piece(NumberText(word, 16, 8, s.precision, f.(zeropad := true)), next, used)
      else Piece(NumberText(word, 16, s.width, s.precision, f), next, used)
    case '%' => Piece("%", next, s.used)
    case 'o' => Piece(NumberText(NumOf(word, q, false), 8, s.width, s.precision, f), next, used)
    case 'X' => Piece(NumberText(NumOf(word, q, false), 16, s.width, s.precision, f.(large := true)), next, used)
    case 'x' => Piece(NumberText(NumOf(word, q, false), 16, s.width, s.precision, f), next, used)
    case 'd' => Piece(NumberText(NumOf(word, q, true), 10, s.width, s.precision, f.(sign := true)), next, used)
    case 'i' => Piece(NumberText(NumOf(word, q, true), 10, s.width, s.precision, f.(sign := true)), next, used)
    case 'u' => Piece(NumberText(NumOf(word, q, false), 10, s.width, s.precision, f), next, used)
    case _ => if s.at < |fmt| then Piece("%" + [fmt[s.at]], next, s.used) else Piece("%", s.at, s.used)
  }

  /** What comes from position i: a plain character or a conversion. */
  function PieceAt(fmt: string, i: nat, args: seq<Arg>, k: nat): (r: Piece)
    requires i < |fmt|
    ensures i < r.next <= |fmt|
  {
    if fmt[i] != '%' then Piece([fmt[i]], i + 1, k) else Convert(fmt, args, Parse(fmt, i, args, k))
  }

  /** The whole output from position i of the format and argument k on. */
  function Formatted(fmt: string, i: nat, args: seq<Arg>, k: nat): string
    decreases |fmt| - i
  {
    if i >= |fmt| then ""
    else
      var piece := PieceAt(fmt, i, args, k);
      piece.text + Formatted(fmt, piece.next, args, piece.used)
  }

  /** A decimal or hexadecimal conversion prints digits that read back to the argument, exactly
      unless its precision is 0; a minus sign comes before them exactly if it is signed and
      negative. */
  lemma NumberReadsBack(num: nat, base: nat, width: int, precision: int, f: Flags)
    returns (before: string, digits: string, after: string)
    requires num < WORD && base in {10, 16}
    ensures NumberText(num, base, width, precision, f) == before + digits + after
    ensures precision != 0 <==> digits != ""
    ensures precision != 0 ==> ReadBack(digits, base) == Magnitude(num, f)
    ensures '-' in before <==> f.sign && Signed(num) < 0
    ensures forall c :: c in before ==> c in {' ', '0', '-', '+'}
    ensures forall c :: c in after ==> c == ' '
  {
    var all, sign := Digits(Magnitude(num, f), base == 16, f.large), SignOf(num, f);
    DigitsReadBack(Magnitude(num, f), base == 16, f.large);
    digits := if precision == 0 then "" else all;
    before, after := NumberBefore(|all|, sign, width, precision, f), NumberAfter(|all|, sign, width, precision, f);
    BeforeHasSign(|all|, sign, width, precision, f);
    Same(' ', Trail(width - Max(|all|, precision), sign, f));
  }

  lemma BeforeHasSign(count: nat, sign: string, width: int, precision: int, f: Flags)
    ensures '-' in NumberBefore(count, sign, width, precision, f) <==> '-' in sign
    ensures forall c :: c in NumberBefore(count, sign, width, precision, f) ==> c in {' ', '0'} || c in sign
  {
    var room := width - Max(count, precision);
    Same(' ', Blanks(room, sign, f));
    Same('0', Fill(room, sign, f));
    Same('0', precision - count);
  }

  lemma {:induction false} Same(c: char, n: int)
    ensures forall d :: d in Rep(c, n) ==> d == c
    decreases n
  {
    if n > 0 {
      Same(c, n - 1);
    }
  }
}
