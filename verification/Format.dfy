/** rt_vsnprintf and print_number of kservice.c: the loops that write into a bounded buffer. */
module Format {
  import opened FormatText

  /** The buffer with the pointers `str` and `end`: characters past the end are only counted. */
  class Sink {
    const buf: array<char>
    const size: nat
    var str: nat
    ghost var out: string
    ghost const was: seq<char>

    ghost predicate Valid()
      reads this, buf
    {
      && size <= buf.Length == |was| && str == |out|
      && (forall i :: 0 <= i < buf.Length ==> buf[i] == if i < size && i < |out| then out[i] else was[i])
    }

    constructor (buf: array<char>, size: nat)
      requires size <= buf.Length
      ensures Valid() && out == "" && this.buf == buf && this.size == size && was == buf[..]
    {
      this.buf, this.size, str := buf, size, 0;
      out, was := "", buf[..];
    }

    /** if (str < end) *str = c; ++str; */
    method Put(c: char)
      requires Valid()
      modifies this`str, this`out, buf
      ensures Valid() && out == old(out) + [c]
    {
      if str < size {
        buf[str] := c;
      }
      str := str + 1;
      out := out + [c];
    }

    /** while (n-- > 0) put c */
    method Pad(c: char, n: int)
      requires Valid()
      modifies this`str, this`out, buf
      ensures Valid() && out == old(out) + Rep(c, n)
    {
      var left := n;
      while left > 0
        invariant Valid() && (n > 0 ==> 0 <= left <= n) && (n <= 0 ==> left == n)
        invariant out == old(out) + Rep(c, n - (if left > 0 then left else 0))
      {
        Put(c);
        left := left - 1;
      }
    }

    method PutAll(s: string)
      requires Valid()
      modifies this`str, this`out, buf
      ensures Valid() && out == old(out) + s
    {
      var i := 0;
      while i < |s|
        invariant i <= |s| && Valid() && out == old(out) + s[..i]
      {
        Put(s[i]);
        i := i + 1;
      }
    }

    /** Putting the digits from the temporary buffer, last one first. */
    method PutReversed(tmp: string, ghost digits: string)
      requires Valid() && Reversed(tmp, digits)
      modifies this`str, this`out, buf
      ensures Valid() && out == old(out) + digits
    {
      var i := |tmp|;
      while i > 0
        invariant 0 <= i <= |tmp| && Valid() && out == old(out) + digits[..|tmp| - i]
      {
        i := i - 1;
        assert tmp[i] == digits[|tmp| - 1 - i];
        Put(tmp[i]);
      }
    }

    /** The part of print_number before the digits. */
    method PrintBefore(count: nat, sign: string, width: int, precision: int, flags: Flags)
      requires Valid()
      modifies this`str, this`out, buf
      ensures Valid() && out == old(out) + NumberBefore(count, sign, width, precision, flags)
    {
      var room := width - if count > precision then count else precision;
      Pad(' ', Blanks(room, sign, flags));
      PutAll(sign);
      Pad('0', Fill(room, sign, flags));
      Pad('0', precision - count);
    }

    /** print_number */
    method PrintNumber(num: nat, base: nat, width: int, precision: int, flags: Flags)
      requires Valid() && num < WORD
      modifies this`str, this`out, buf
      ensures Valid() && out == old(out) + NumberText(num, base, width, precision, flags)
    {
      var sign := SignOf(num, flags);
      var tmp := Collect(Magnitude(num, flags), base, flags.large);
      ghost var digits := Digits(Magnitude(num, flags), base != 10, flags.large);
      PrintParts(tmp, sign, width, precision, flags, digits);
    }

    method PrintParts(tmp: string, sign: string, width: int, precision: int, flags: Flags, ghost digits: string)
      requires Valid() && Reversed(tmp, digits)
      modifies this`str, this`out, buf
      ensures Valid()
      ensures out == old(out) +
        (NumberBefore(|digits|, sign, width, precision, flags) + (if precision == 0 then "" else digits) +
          NumberAfter(|digits|, sign, width, precision, flags))
    {
      PrintBefore(|tmp|, sign, width, precision, flags);
      if precision != 0 {
        PutReversed(tmp, digits);
      }
      Pad(' ', Trail(width - Max(|tmp|, precision), sign, flags));
    }

    /** The 'c' case. */
    method PrintChar(c: char, width: int, left: bool)
      requires Valid()
      modifies this`str, this`out, buf
      ensures Valid() && out == old(out) + CharText(c, width, left)
    {
      if !left {
        Pad(' ', width - 1);
      }
      Put(c);
      if left {
        Pad(' ', width - 1);
      }
    }

    /** The 's' case. */
    method PrintString(s: string, width: int, precision: int, left: bool)
      requires Valid()
      modifies this`str, this`out, buf
      ensures Valid() && out == old(out) + StringText(s, width, precision, left)
    {
      var len := |s|;
      if precision > 0 && len > precision {
        len := precision;
      }
      if !left {
        Pad(' ', width - len);
      }
      PutAll(s[..len]);
      if left {
        Pad(' ', width - len);
      }
    }

    /** The switch over the conversion character. */
    method PrintConversion(fmt: string, args: seq<Arg>, s: Spec) returns (next: nat, used: nat)
      requires Valid() && s.at <= |fmt|
      modifies this`str, this`out, buf
      ensures Valid() && out == old(out) + Convert(fmt, args, s).text
      ensures next == Convert(fmt, args, s).next && used == Convert(fmt, args, s).used
    {
      var word := Word(args, s.used);
      var f := s.flags;
      next, used := s.at + 1, s.used + 1;
      match At(fmt, s.at) {
        case 'c' => PrintChar((word % 256) as char, s.width, f.left);
        case 's' => PrintString(Text(args, s.used), s.width, s.precision, f.left);
        case 'p' =>
          if s.width == -1 {
            PrintNumber(word, 16, 8, s.precision, f.(zeropad := true));
          } else {
            PrintNumber(word, 16, s.width, s.precision, f);
          }
        case '%' =>
          Put('%');
          used := s.used;
        case 'o' => PrintNumber(NumOf(word, s.qualifier, false), 8, s.width, s.precision, f);
        case 'X' => PrintNumber(NumOf(word, s.qualifier, false), 16, s.width, s.precision, f.(large := true));
        case 'x' => PrintNumber(NumOf(word, s.qualifier, false), 16, s.width, s.precision, f);
        case 'd' => PrintNumber(NumOf(word, s.qualifier, true), 10, s.width, s.precision, f.(sign := true));
        case 'i' => PrintNumber(NumOf(word, s.qualifier, true), 10, s.width, s.precision, f.(sign := true));
        case 'u' => PrintNumber(NumOf(word, s.qualifier, false), 10, s.width, s.precision, f);
        case _ =>
          used := s.used;
          Put('%');
          if s.at < |fmt| {
            Put(fmt[s.at]);
          } else {
            next := s.at;
          }
      }
    }
  }

  ghost predicate Reversed(tmp: string, s: string) {
    |tmp| == |s| && forall i :: 0 <= i < |s| ==> tmp[|s| - 1 - i] == s[i]
  }

  /** The digits still to be found. */
  ghost function Leading(n: nat, hex: bool, large: bool): string {
    if n == 0 then "" else Digits(n, hex, large)
  }

  lemma DigitsStep(n: nat, hex: bool, large: bool, s: string)
    requires n > 0
    ensures Leading(n, hex, large) + s == Leading(Rest(n, hex), hex, large) + ([Digit(LastDigit(n, hex), large)] + s)
  {
    assert Leading(n, hex, large) == Leading(Rest(n, hex), hex, large) + [Digit(LastDigit(n, hex), large)];
  }

  /** The digits in the order `divide` finds them. */
  method Collect(num: nat, base: nat, large: bool) returns (tmp: string)
    ensures Reversed(tmp, Digits(num, base != 10, large))
  {
    var hex := base != 10;
    if num == 0 {
      return ['0'];
    }
    tmp := "";
    var n := num;
    ghost var s := "";
    while n != 0
      invariant Reversed(tmp, s) && Digits(num, hex, large) == Leading(n, hex, large) + s
    {
      DigitsStep(n, hex, large, s);
      tmp := tmp + [Digit(LastDigit(n, hex), large)];
      s := [Digit(LastDigit(n, hex), large)] + s;
      n := Rest(n, hex);
    }
  }

  /** The loop over the flag characters. */
  method ReadFlags(fmt: string, i: nat) returns (f: Flags, at: nat)
    requires i <= |fmt|
    ensures (f, at) == ParseFlags(fmt, i, NO_FLAGS)
  {
    f, at := NO_FLAGS, i;
    while at < |fmt| && AddFlag(fmt[at], f).Some?
      invariant i <= at <= |fmt| && ParseFlags(fmt, i, NO_FLAGS) == ParseFlags(fmt, at, f)
    {
      f := AddFlag(fmt[at], f).value;
      at := at + 1;
    }
  }

  /** skip_atoi */
  method SkipAtoi(fmt: string, i: nat) returns (n: nat, at: nat)
    requires i <= |fmt|
    ensures (n, at) == ParseNumber(fmt, i, 0)
  {
    n, at := 0, i;
    while at < |fmt| && IsDigit(fmt[at])
      invariant i <= at <= |fmt| && ParseNumber(fmt, i, 0) == ParseNumber(fmt, at, n)
    {
      n := n * 10 + (fmt[at] - '0') as nat;
      at := at + 1;
    }
  }

  /** From the '%' at position i to the conversion character. */
  method ReadSpec(fmt: string, i: nat, args: seq<Arg>, k: nat) returns (s: Spec)
    requires i < |fmt|
    ensures s == Parse(fmt, i, args, k)
  {
    var f, at := ReadFlags(fmt, i + 1);
    s := ReadWidth(fmt, at, args, k, f);
    s := ReadPrecision(fmt, args, s);
    if At(fmt, s.at) == 'h' || At(fmt, s.at) == 'l' {
      s := s.(qualifier := At(fmt, s.at), at := s.at + 1);
    }
  }

  method ReadWidth(fmt: string, i: nat, args: seq<Arg>, k: nat, f: Flags) returns (s: Spec)
    requires i <= |fmt|
    ensures s == ParseWidth(fmt, i, args, k, f)
  {
    s := Spec(f, -1, -1, '\0', i, k);
    if IsDigit(At(fmt, i)) {
      var n, after := SkipAtoi(fmt, i);
      s := s.(width := n, at := after);
    } else if At(fmt, i) == '*' {
      var w := Signed(Word(args, k));
      s := s.(width := w, at := i + 1, used := k + 1);
      if w < 0 {
        s := s.(width := -w, flags := f.(left := true));
      }
    }
  }

  method ReadPrecision(fmt: string, args: seq<Arg>, spec: Spec) returns (s: Spec)
    requires spec.at <= |fmt| && spec.precision == -1
    ensures s == ParsePrecision(fmt, args, spec)
  {
    s := spec;
    if At(fmt, s.at) == '.' {
      s := s.(at := s.at + 1);
      if IsDigit(At(fmt, s.at)) {
        var n, after := SkipAtoi(fmt, s.at);
        s := s.(precision := n, at := after);
      } else if At(fmt, s.at) == '*' {
        s := s.(precision := Signed(Word(args, s.used)), at := s.at + 1, used := s.used + 1);
      }
      if s.precision < 0 {
        s := s.(precision := 0);
      }
    }
  }

  /** rt_vsnprintf: with room for any text at all, the buffer gets as much of it as fits and a
      terminator; the result is the length of the whole text, whatever the size. */
  method VsnPrintf(buf: array<char>, size: nat, fmt: string, args: seq<Arg>) returns (len: nat)
    requires size <= buf.Length && '\0' !in fmt
    modifies buf
    ensures len == |Formatted(fmt, 0, args, 0)|
    ensures size > 0 ==> var n := if len < size then len else size - 1;
      && buf[..n] == Formatted(fmt, 0, args, 0)[..n] && buf[n] == '\0'
      && (forall i :: n < i < buf.Length ==> buf[i] == old(buf[i]))
    ensures size == 0 ==> buf[..] == old(buf[..])
  {
    var sink := new Sink(buf, size);
    FormatAll(sink, fmt, args);
    len := sink.str;
    if size > 0 {
      if len < size {
        buf[len] := '\0';
      } else {
        buf[size - 1] := '\0';
      }
    }
  }

  /** The loop over the format. */
  method FormatAll(sink: Sink, fmt: string, args: seq<Arg>)
    requires sink.Valid() && sink.out == ""
    modifies sink`str, sink`out, sink.buf
    ensures sink.Valid() && sink.out == Formatted(fmt, 0, args, 0)
  {
    var i, k := 0, 0;
    ghost var whole := Formatted(fmt, 0, args, 0);
    ghost var rest := whole;
    RemainingIs(fmt, 0, args, 0, rest);
    while i < |fmt|
      invariant i <= |fmt| && sink.Valid()
      invariant whole == sink.out + rest && Remaining(fmt, i, args, k, rest)
      decreases |fmt| - i
    {
      rest := OnePiece(fmt, i, args, k, whole, sink.out, rest);
      i, k := FormatOne(sink, fmt, i, args, k);
    }
    RemainingIs(fmt, i, args, k, rest);
  }

  /** One character or one conversion. */
  method FormatOne(sink: Sink, fmt: string, i: nat, args: seq<Arg>, k: nat) returns (next: nat, used: nat)
    requires sink.Valid() && i < |fmt|
    modifies sink`str, sink`out, sink.buf
    ensures sink.Valid() && sink.out == old(sink.out) + PieceAt(fmt, i, args, k).text
    ensures next == PieceAt(fmt, i, args, k).next && used == PieceAt(fmt, i, args, k).used
  {
    if fmt[i] != '%' {
      next, used := i + 1, k;
      sink.Put(fmt[i]);
    } else {
      var s := ReadSpec(fmt, i, args, k);
      next, used := sink.PrintConversion(fmt, args, s);
    }
  }

  ghost predicate Opened(b: bool) {
    b
  }

  /** `rest` is what the format has still to give from position i and argument k on. */
  ghost predicate Remaining(fmt: string, i: nat, args: seq<Arg>, k: nat, rest: string) {
    forall b {:trigger Opened(b)} :: Opened(b) ==> rest == Formatted(fmt, i, args, k)
  }

  lemma RemainingIs(fmt: string, i: nat, args: seq<Arg>, k: nat, rest: string)
    ensures Remaining(fmt, i, args, k, rest) <==> rest == Formatted(fmt, i, args, k)
  {
    assert Opened(true);
  }

  lemma OnePiece(fmt: string, i: nat, args: seq<Arg>, k: nat, whole: string, out: string, rest: string)
    returns (left: string)
    requires i < |fmt| && whole == out + rest && Remaining(fmt, i, args, k, rest)
    ensures var p := PieceAt(fmt, i, args, k);
      whole == (out + p.text) + left && Remaining(fmt, p.next, args, p.used, left)
  {
    left := Behind(fmt, i, args, k, rest);
    Regroup(out, PieceAt(fmt, i, args, k).text, left);
  }

  lemma Behind(fmt: string, i: nat, args: seq<Arg>, k: nat, rest: string) returns (left: string)
    requires i < |fmt| && Remaining(fmt, i, args, k, rest)
    ensures var p := PieceAt(fmt, i, args, k);
      rest == p.text + left && Remaining(fmt, p.next, args, p.used, left)
  {
    var p := PieceAt(fmt, i, args, k);
    left := Formatted(fmt, p.next, args, p.used);
    RemainingIs(fmt, i, args, k, rest);
    RemainingIs(fmt, p.next, args, p.used, left);
  }

  lemma Regroup(a: string, b: string, c: string)
    ensures a + (b + c) == (a + b) + c
  {
  }
}
