/** pack and unpack: a format-driven writer and reader of big-endian integers and counted strings. */
module Codec {
  import opened MachineWords

  type Byte = x: int | 0 <= x < 256

  /** An integer argument of any size; a C string, given by the bytes before its terminator. */
  datatype Arg = Int(value: int) | Str(chars: seq<Byte>)

  // ---------- Integers ----------

  function Range(n: nat): (r: nat)
    ensures r > 0
  {
    if n == 0 then 1 else 256 * Range(n - 1)
  }

  // The n low bytes of x in two's complement, most significant first.
  function IntBytes(x: int, n: nat): (bs: seq<Byte>)
    ensures |bs| == n
    decreases n
  {
    if n == 0 then [] else IntBytes(x / 256, n - 1) + [x % 256]
  }

  function Unsigned(bs: seq<Byte>): nat {
    if bs == [] then 0 else 256 * Unsigned(bs[..|bs| - 1]) + bs[|bs| - 1]
  }

  // The re-signing of unpacki16, unpacki32, unpacki64 and case 'c'.
  function Resigned(u: nat, n: nat): int {
    if 2 * u < Range(n) then u else -1 - (Range(n) - 1 - u)
  }

  predicate InRange(x: int, n: nat, signed: bool) {
    if signed then -(Range(n) as int) <= 2 * x < Range(n) else 0 <= x < Range(n)
  }

  // x as an integer variable of n bytes holds it.
  function Reduced(x: int, n: nat, signed: bool): int {
    if signed then Resigned(x % Range(n), n) else x % Range(n)
  }

  lemma {:induction false} UnsignedOfInt(x: int, n: nat)
    ensures Unsigned(IntBytes(x, n)) == x % Range(n)
    decreases n
  {
    if n > 0 {
      UnsignedOfInt(x / 256, n - 1);
      assert IntBytes(x, n)[..n - 1] == IntBytes(x / 256, n - 1);
      NestedModulo(x, Range(n - 1));
    }
  }

  lemma NestedModulo(x: int, r: nat)
    requires r > 0
    ensures 256 * ((x / 256) % r) + x % 256 == x % (256 * r)
  {
    var h, low := x / 256, x % 256;
    var q, m := h / r, h % r;
    assert h == r * q + m && x == 256 * h + low;
    assert x == (256 * r) * q + (256 * m + low);
    ModuloUnique(x, 256 * r, q, 256 * m + low);
  }

  lemma ModuloUnique(x: int, d: nat, q: int, m: nat)
    requires x == d * q + m && m < d
    ensures x % d == m
  {
    var q', m' := x / d, x % d;
    assert x == d * q' + m';
    Distribute(d, q, q');
    Multiple(d, q - q');
  }

  lemma Distribute(d: int, x: int, y: int)
    ensures d * (x - y) == d * x - d * y
  {
  }

  lemma Multiple(d: nat, k: int)
    ensures k >= 1 ==> d * k >= d
    ensures k <= -1 ==> d * k <= -(d as int)
  {
  }

  /** Reading back an integer field gives the argument exactly when it is in the range of the field. */
  lemma ReducedExactly(x: int, n: nat, signed: bool)
    ensures Reduced(x, n, signed) == x <==> InRange(x, n, signed)
    ensures InRange(Reduced(x, n, signed), n, signed)
  {
    hide Range;
    var r := Range(n);
    if signed {
      if -(r as int) <= 2 * x < 0 {
        ModuloUnique(x, r, -1, x + r);
      } else if 0 <= x < r {
        ModuloUnique(x, r, 0, x);
      }
      RangeIsEvenOrOne(n);
    } else if 0 <= x < r {
      ModuloUnique(x, r, 0, x);
    }
  }

  lemma RangeIsEvenOrOne(n: nat)
    ensures Range(n) % 2 == 0 || (n == 0 && Range(n) == 1)
  {
  }

  // ---------- Formats ----------

  function IntWidth(c: char): nat {
    match c
    case 'c' => 1 case 'C' => 1
    case 'h' => 2 case 'H' => 2
    case 'l' => 4 case 'L' => 4
    case 'q' => 8 case 'Q' => 8
    case _ => 0
  }

  predicate IsSigned(c: char) {
    c == 'c' || c == 'h' || c == 'l' || c == 'q'
  }

  predicate IsInt(c: char) {
    IntWidth(c) > 0
  }

  predicate IsDigit(c: char) {
    '0' <= c <= '9'
  }

  function AddDigit(width: nat, c: char): nat
    requires IsDigit(c)
  {
    (width * 10 + (c - '0') as int) % TWO64
  }

  /** One letter of a format that stands for an argument, and the width in front of it, 0 for none. */
  datatype Field = Field(letter: char, width: nat)

  function Fields(format: string, width: nat): seq<Field> {
    if format == "" then []
    else
      var c, rest := format[0], format[1..];
      if IsInt(c) || c == 's' then [Field(c, width)] + Fields(rest, 0)
      else if IsDigit(c) then Fields(rest, AddDigit(width, c))
      else Fields(rest, 0)
  }

  // The floating-point letters are not part of this model.
  predicate Supported(format: string) {
    forall i :: 0 <= i < |format| ==> format[i] !in {'f', 'd', 'g'}
  }

  predicate Suits(a: Arg, f: Field) {
    if f.letter == 's' then a.Str? else a.Int? && IsInt(f.letter)
  }

  predicate Matches(fs: seq<Field>, args: seq<Arg>) {
    |fs| == |args| && forall i :: 0 <= i < |fs| ==> Suits(args[i], fs[i])
  }

  // ---------- What is written and what is read ----------

  function FieldBytes(f: Field, a: Arg): seq<Byte>
    requires Suits(a, f)
  {
    if f.letter == 's' then IntBytes(|a.chars|, 2) + a.chars else IntBytes(a.value, IntWidth(f.letter))
  }

  function Packed(fs: seq<Field>, args: seq<Arg>): seq<Byte>
    requires Matches(fs, args)
  {
    if fs == [] then [] else FieldBytes(fs[0], args[0]) + Packed(fs[1..], args[1..])
  }

  predicate HasField(f: Field, buf: seq<Byte>) {
    if f.letter == 's' then |buf| >= 2 && |buf| >= 2 + Unsigned(buf[..2]) else |buf| >= IntWidth(f.letter)
  }

  function FieldLength(f: Field, buf: seq<Byte>): (n: nat)
    requires HasField(f, buf)
    ensures n <= |buf|
  {
    if f.letter == 's' then 2 + Unsigned(buf[..2]) else IntWidth(f.letter)
  }

  // How many bytes of a string are copied before its terminator.
  function CopiedCount(len: nat, width: nat): (n: nat)
    ensures n <= len
  {
    if width > 0 && len > width then width - 1 else len
  }

  function ReadField(f: Field, buf: seq<Byte>): Arg
    requires HasField(f, buf)
  {
    if f.letter == 's' then Str(buf[2..2 + CopiedCount(Unsigned(buf[..2]), f.width)])
    else
      var n := IntWidth(f.letter);
      Int(if IsSigned(f.letter) then Resigned(Unsigned(buf[..n]), n) else Unsigned(buf[..n]))
  }

  /** The buffer is long enough for all the fields. */
  predicate Covers(fs: seq<Field>, buf: seq<Byte>) {
    fs == [] || (HasField(fs[0], buf) && Covers(fs[1..], buf[FieldLength(fs[0], buf)..]))
  }

  function Unpacked(fs: seq<Field>, buf: seq<Byte>): seq<Arg>
    requires Covers(fs, buf)
  {
    if fs == [] then [] else [ReadField(fs[0], buf)] + Unpacked(fs[1..], buf[FieldLength(fs[0], buf)..])
  }

  function Consumed(fs: seq<Field>, buf: seq<Byte>): nat
    requires Covers(fs, buf)
  {
    if fs == [] then 0
    else FieldLength(fs[0], buf) + Consumed(fs[1..], buf[FieldLength(fs[0], buf)..])
  }

  // ---------- Round trip ----------

  /** What comes back for an argument: an integer reduced to its field, a string cut to one byte less than
      its width if it is longer than that. */
  function Restored(f: Field, a: Arg): Arg
    requires Suits(a, f)
  {
    if f.letter == 's' then Str(a.chars[..CopiedCount(|a.chars|, f.width)])
    else Int(Reduced(a.value, IntWidth(f.letter), IsSigned(f.letter)))
  }

  predicate ShortStrings(args: seq<Arg>) {
    forall i :: 0 <= i < |args| && args[i].Str? ==> |args[i].chars| <= 65535
  }

  lemma TwoBytes()
    ensures Range(2) == 65536
  {
    assert Range(1) == 256;
  }

  lemma FieldRoundTrip(f: Field, a: Arg, rest: seq<Byte>)
    requires Suits(a, f) && (a.Str? ==> |a.chars| <= 65535)
    ensures var buf := FieldBytes(f, a) + rest;
            && HasField(f, buf) && FieldLength(f, buf) == |FieldBytes(f, a)| && buf[FieldLength(f, buf)..] == rest
            && ReadField(f, buf) == Restored(f, a)
  {
    hide IntBytes, Unsigned, Range, IntWidth, Resigned;
    var buf := FieldBytes(f, a) + rest;
    if f.letter == 's' {
      var len := |a.chars|;
      assert buf[..2] == IntBytes(len, 2) && buf[2..2 + len] == a.chars;
      UnsignedOfInt(len, 2);
      TwoBytes();
      assert buf[2..2 + CopiedCount(len, f.width)] == a.chars[..CopiedCount(len, f.width)];
    } else {
      var n := IntWidth(f.letter);
      assert buf[..n] == IntBytes(a.value, n);
      UnsignedOfInt(a.value, n);
    }
  }

  /** For every format and every matching argument list with strings of at most 65535 bytes, unpack gives
      each argument back as its field restores it, each independently of all others, and reads exactly the
      bytes pack has written. */
  lemma {:induction false} RoundTrip(fs: seq<Field>, args: seq<Arg>, rest: seq<Byte>)
    requires Matches(fs, args) && ShortStrings(args)
    ensures var buf := Packed(fs, args) + rest;
            && Covers(fs, buf) && Consumed(fs, buf) == |Packed(fs, args)|
            && |Unpacked(fs, buf)| == |args|
            && forall i :: 0 <= i < |args| ==> Unpacked(fs, buf)[i] == Restored(fs[i], args[i])
  {
    hide FieldBytes, HasField, FieldLength, ReadField, Restored, Suits;
    if fs != [] {
      var tail := Packed(fs[1..], args[1..]) + rest;
      RoundTrip(fs[1..], args[1..], rest);
      FieldRoundTrip(fs[0], args[0], tail);
      assert Packed(fs, args) + rest == FieldBytes(fs[0], args[0]) + tail;
    }
  }

  /** The field gives the argument back unchanged. */
  predicate Fits(f: Field, a: Arg)
    requires Suits(a, f)
  {
    if f.letter == 's' then |a.chars| <= 65535 && (f.width == 0 || |a.chars| <= f.width)
    else InRange(a.value, IntWidth(f.letter), IsSigned(f.letter))
  }

  lemma FieldExactly(f: Field, a: Arg, rest: seq<Byte>)
    requires Suits(a, f) && HasField(f, FieldBytes(f, a) + rest)
    ensures ReadField(f, FieldBytes(f, a) + rest) == a <==> Fits(f, a)
  {
    hide IntBytes, Unsigned, Range, IntWidth, Resigned, Reduced, InRange;
    if f.letter == 's' && |a.chars| > 65535 {
      assert (FieldBytes(f, a) + rest)[..2] == IntBytes(|a.chars|, 2);
      UnsignedOfInt(|a.chars|, 2);
      TwoBytes();
    } else {
      FieldRoundTrip(f, a, rest);
      if f.letter != 's' {
        ReducedExactly(a.value, IntWidth(f.letter), IsSigned(f.letter));
      }
    }
  }

  /** The round trip gives back all arguments unchanged if and only if every integer is in the range of its
      field, and every string has at most 65535 bytes and no more than its width, where it has one. */
  lemma {:induction false} RoundTripExactly(fs: seq<Field>, args: seq<Arg>, rest: seq<Byte>)
    requires Matches(fs, args) && Covers(fs, Packed(fs, args) + rest)
    ensures Unpacked(fs, Packed(fs, args) + rest) == args <==> forall i :: 0 <= i < |args| ==> Fits(fs[i], args[i])
  {
    hide FieldBytes, HasField, FieldLength, ReadField, Fits, Suits;
    if fs != [] {
      var tail := Packed(fs[1..], args[1..]) + rest;
      assert Packed(fs, args) + rest == FieldBytes(fs[0], args[0]) + tail;
      FieldExactly(fs[0], args[0], tail);
      if Fits(fs[0], args[0]) {
        FitsIsShort(fs[0], args[0]);
        FieldRoundTrip(fs[0], args[0], tail);
        RoundTripExactly(fs[1..], args[1..], rest);
      }
    }
  }

  lemma FitsIsShort(f: Field, a: Arg)
    requires Suits(a, f) && Fits(f, a)
    ensures a.Str? ==> |a.chars| <= 65535
  {
  }

  // ---------- Widths in formats ----------

  predicate AllDigits(digits: string) {
    forall i :: 0 <= i < |digits| ==> IsDigit(digits[i])
  }

  // The width in force after the digits, one AddDigit after the other.
  function WidthOf(digits: string, width: nat): nat
    requires AllDigits(digits)
  {
    if digits == "" then width else WidthOf(digits[1..], AddDigit(width, digits[0]))
  }

  /** The number the digits spell in decimal. */
  function Decimal(digits: string): nat
    requires AllDigits(digits)
  {
    if digits == "" then 0
    else 10 * Decimal(digits[..|digits| - 1]) + (digits[|digits| - 1] - '0') as int
  }

  lemma {:induction false} WidthOfLast(digits: string, width: nat)
    requires AllDigits(digits) && digits != ""
    ensures var n := |digits| - 1; WidthOf(digits, width) == AddDigit(WidthOf(digits[..n], width), digits[n])
  {
    hide AddDigit, IsDigit;
    var n := |digits| - 1;
    if n == 0 {
      assert digits[1..] == "";
    } else {
      WidthOfLast(digits[1..], AddDigit(width, digits[0]));
      assert digits[1..][..n - 1] == digits[..n][1..];
    }
  }

  lemma TimesTenModulo(x: nat, d: nat)
    ensures ((x % TWO64) * 10 + d) % TWO64 == (x * 10 + d) % TWO64
  {
  }

  /** The accumulated width is the decimal number, in a size_t. */
  lemma {:induction false} WidthIsDecimal(digits: string)
    requires AllDigits(digits)
    ensures WidthOf(digits, 0) == Decimal(digits) % TWO64
  {
    if digits != "" {
      var n := |digits| - 1;
      WidthOfLast(digits, 0);
      WidthIsDecimal(digits[..n]);
      TimesTenModulo(Decimal(digits[..n]), (digits[n] - '0') as int);
    }
  }

  lemma {:induction false} WidthCarries(digits: string, width: nat, rest: string)
    requires AllDigits(digits)
    ensures Fields(digits + "s" + rest, width) == [Field('s', WidthOf(digits, width))] + Fields(rest, 0)
  {
    hide AddDigit;
    var format := digits + "s" + rest;
    if digits == "" {
      assert format[0] == 's' && format[1..] == rest;
    } else {
      assert format[0] == digits[0] && format[1..] == digits[1..] + "s" + rest;
      WidthCarries(digits[1..], AddDigit(width, digits[0]), rest);
    }
  }

  /** A decimal number in front of an 's' is, modulo 2^64, the width of that string and of nothing behind it. */
  lemma WidthPrefix(digits: string, rest: string)
    requires AllDigits(digits)
    ensures Fields(digits + "s" + rest, 0) == [Field('s', Decimal(digits) % TWO64)] + Fields(rest, 0)
  {
    WidthCarries(digits, 0, rest);
    WidthIsDecimal(digits);
  }

  lemma {:induction false} NoWidths(format: string)
    requires forall i :: 0 <= i < |format| ==> !IsDigit(format[i])
    ensures forall i :: 0 <= i < |Fields(format, 0)| ==> Fields(format, 0)[i].width == 0
  {
    if format != "" {
      NoWidths(format[1..]);
    }
  }

  /** The plain promise: with a format without widths, integers in range and strings of at most 65535 bytes,
      unpack returns what pack was given and stops where pack stopped. */
  lemma FormatRoundTrip(format: string, args: seq<Arg>, rest: seq<Byte>)
    requires Matches(Fields(format, 0), args) && ShortStrings(args)
    requires forall i :: 0 <= i < |format| ==> !IsDigit(format[i])
    requires forall i :: 0 <= i < |args| && args[i].Int? ==>
               var c := Fields(format, 0)[i].letter; InRange(args[i].value, IntWidth(c), IsSigned(c))
    ensures var fs := Fields(format, 0);
            var buf := Packed(fs, args) + rest;
            Covers(fs, buf) && Unpacked(fs, buf) == args && Consumed(fs, buf) == |Packed(fs, args)|
  {
    hide Fields, Packed, InRange, IntWidth, Unpacked, Covers;
    NoWidths(format);
    RoundTrip(Fields(format, 0), args, rest);
    RoundTripExactly(Fields(format, 0), args, rest);
    forall i | 0 <= i < |args| ensures Fits(Fields(format, 0)[i], args[i]) {
      assert Suits(args[i], Fields(format, 0)[i]);
    }
  }

  // ---------- Widths and destinations ----------

  /** A string field with a width of at least 1 takes no more than its width in the destination, terminator
      included, if and only if the length in the buffer is not the width: at that length it takes one more. */
  lemma WidthBoundsUnlessMet(f: Field, buf: seq<Byte>)
    requires f.letter == 's' && f.width > 0 && HasField(f, buf)
    ensures |ReadField(f, buf).chars| + 1 <= f.width <==> Unsigned(buf[..2]) != f.width
    ensures |ReadField(f, buf).chars| + 1 <= f.width + 1
  {
    hide Unsigned;
  }

  /** In terms of what was packed: each string with a width k takes at most k bytes exactly if it is not k bytes
      long itself. */
  lemma DestinationsOfWidth(fs: seq<Field>, args: seq<Arg>, rest: seq<Byte>, i: nat)
    requires Matches(fs, args) && ShortStrings(args) && i < |fs| && fs[i].letter == 's' && fs[i].width > 0
    ensures Covers(fs, Packed(fs, args) + rest) && i < |Unpacked(fs, Packed(fs, args) + rest)|
    ensures var r := Unpacked(fs, Packed(fs, args) + rest)[i];
            r.Str? && args[i].Str? && (|r.chars| + 1 <= fs[i].width <==> |args[i].chars| != fs[i].width)
  {
    hide Packed, Unpacked, Covers;
    RoundTrip(fs, args, rest);
    assert Suits(args[i], fs[i]);
  }

  /** With the format "3s" the string "abc" comes back whole and needs four bytes. */
  lemma ThreeInThree()
    ensures var fs, args := Fields("3s", 0), [Str([97, 98, 99])];
            && fs == [Field('s', 3)] && Matches(fs, args) && Covers(fs, Packed(fs, args))
            && Unpacked(fs, Packed(fs, args)) == args && |args[0].chars| + 1 > fs[0].width
  {
    var args: seq<Arg> := [Str([97, 98, 99])];
    assert "3" + "s" + "" == "3s";
    WidthPrefix("3", "");
    assert Decimal("3") == 3 by {
      assert "3"[..0] == "";
    }
    var fs := Fields("3s", 0);
    assert fs == [Field('s', 3)];
    hide Packed, Covers, Unpacked, Fields;
    RoundTrip(fs, args, []);
    assert Packed(fs, args) + [] == Packed(fs, args);
    assert Unpacked(fs, Packed(fs, args))[0] == args[0];
  }

  // ---------- The routines ----------

  // The bytes of the buffer from at on are replaced by bs.
  function Written(buf: seq<Byte>, at: nat, bs: seq<Byte>): seq<Byte>
    requires at + |bs| <= |buf|
  {
    buf[..at] + bs + buf[at + |bs|..]
  }

  lemma IntBytesUnfolded(x: int)
    ensures IntBytes(x, 1) == [x % 256]
    ensures IntBytes(x, 2) == [x / 256 % 256, x % 256]
    ensures IntBytes(x, 4) == [x / 0x1000000 % 256, x / 0x10000 % 256, x / 256 % 256, x % 256]
  {
    assert IntBytes(x, 0) == [];
    assert x / 256 / 256 == x / 0x10000 && x / 256 / 256 / 256 == x / 0x1000000;
  }

  lemma IntBytesHalves(x: int)
    ensures IntBytes(x, 8) == IntBytes(x / TWO32, 4) + IntBytes(x, 4)
  {
    var y := x / TWO32;
    assert x / 256 / 256 / 256 / 256 == y;
    assert IntBytes(x, 8) == IntBytes(y, 4) + [x / 256 / 256 / 256 % 256, x / 256 / 256 % 256, x / 256 % 256, x % 256];
    IntBytesUnfolded(x);
  }

  lemma IntBytesOfEight(x: int)
    ensures IntBytes(x, 8) == [x / 0x100_0000_0000_0000 % 256, x / 0x1_0000_0000_0000 % 256,
                               x / 0x100_0000_0000 % 256, x / 0x1_0000_0000 % 256] + IntBytes(x, 4)
  {
    hide IntBytes;
    var y := x / TWO32;
    IntBytesHalves(x);
    IntBytesUnfolded(y);
    assert y / 0x1000000 == x / 0x100_0000_0000_0000;
    assert y / 0x10000 == x / 0x1_0000_0000_0000;
    assert y / 256 == x / 0x100_0000_0000;
  }

  method PackI16(buf: array<Byte>, at: nat, i: int)
    requires at + 2 <= buf.Length
    modifies buf
    ensures buf[..] == Written(old(buf[..]), at, IntBytes(i, 2))
  {
    IntBytesUnfolded(i);
    buf[at], buf[at + 1] := i / 256 % 256, i % 256;
  }

  method PackI32(buf: array<Byte>, at: nat, i: int)
    requires at + 4 <= buf.Length
    modifies buf
    ensures buf[..] == Written(old(buf[..]), at, IntBytes(i, 4))
  {
    IntBytesUnfolded(i);
    buf[at], buf[at + 1] := i / 0x1000000 % 256, i / 0x10000 % 256;
    buf[at + 2], buf[at + 3] := i / 256 % 256, i % 256;
  }

  method PackI64(buf: array<Byte>, at: nat, i: int)
    requires at + 8 <= buf.Length
    modifies buf
    ensures buf[..] == Written(old(buf[..]), at, IntBytes(i, 8))
  {
    hide IntBytes;
    IntBytesOfEight(i);
    IntBytesUnfolded(i);
    buf[at], buf[at + 1] := i / 0x100_0000_0000_0000 % 256, i / 0x1_0000_0000_0000 % 256;
    buf[at + 2], buf[at + 3] := i / 0x100_0000_0000 % 256, i / 0x1_0000_0000 % 256;
    buf[at + 4], buf[at + 5] := i / 0x1000000 % 256, i / 0x10000 % 256;
    buf[at + 6], buf[at + 7] := i / 256 % 256, i % 256;
  }

  function ByteAt(buf: seq<Byte>, i: nat): int
    requires i < |buf|
  {
    buf[i]
  }

  function UnpackU16(buf: seq<Byte>): nat
    requires |buf| >= 2
  {
    ByteAt(buf, 0) * 256 + ByteAt(buf, 1)
  }

  function UnpackI16(buf: seq<Byte>): int
    requires |buf| >= 2
  {
    var u := UnpackU16(buf);
    if u <= 0x7fff then u else -1 - (0xffff - u)
  }

  function UnpackU32(buf: seq<Byte>): nat
    requires |buf| >= 4
  {
    ByteAt(buf, 0) * 0x1000000 + ByteAt(buf, 1) * 0x10000 + ByteAt(buf, 2) * 256 + ByteAt(buf, 3)
  }

  function UnpackI32(buf: seq<Byte>): int
    requires |buf| >= 4
  {
    var u := UnpackU32(buf);
    if u <= 0x7fffffff then u else -1 - (0xffffffff - u)
  }

  function UnpackU64(buf: seq<Byte>): nat
    requires |buf| >= 8
  {
    ByteAt(buf, 0) * 0x100_0000_0000_0000 + ByteAt(buf, 1) * 0x1_0000_0000_0000 +
    ByteAt(buf, 2) * 0x100_0000_0000 + ByteAt(buf, 3) * 0x1_0000_0000 +
    ByteAt(buf, 4) * 0x1000000 + ByteAt(buf, 5) * 0x10000 + ByteAt(buf, 6) * 256 + ByteAt(buf, 7)
  }

  function UnpackI64(buf: seq<Byte>): int
    requires |buf| >= 8
  {
    var u := UnpackU64(buf);
    if u <= 0x7fff_ffff_ffff_ffff then u else -1 - (0xffff_ffff_ffff_ffff - u)
  }

  lemma UnsignedOfFour(a: Byte, b: Byte, c: Byte, d: Byte)
    ensures Unsigned([a]) == a && Unsigned([a, b]) == 256 * (a as int) + b
    ensures Unsigned([a, b, c, d]) == 0x1000000 * (a as int) + 0x10000 * (b as int) + 256 * (c as int) + d
  {
    assert [a][..0] == [] && [a, b][..1] == [a];
    assert [a, b, c, d][..3] == [a, b, c] && [a, b, c][..2] == [a, b];
  }

  lemma TimesBase(x: int, y: int)
    ensures 256 * (x * y) == x * (256 * y)
  {
  }

  lemma UnsignedPush(s: seq<Byte>, x: Byte)
    ensures Unsigned(s + [x]) == 256 * Unsigned(s) + x && Unsigned([]) == 0
  {
    assert (s + [x])[..|s|] == s;
  }

  lemma RangeNext(n: nat)
    ensures Range(n + 1) == 256 * Range(n) && Range(0) == 1
  {
  }

  lemma {:induction false} UnsignedConcat(a: seq<Byte>, b: seq<Byte>)
    ensures Unsigned(a + b) == Unsigned(a) * Range(|b|) + Unsigned(b)
  {
    hide Unsigned, Range;
    UnsignedPush([], 0);
    RangeNext(0);
    if b == [] {
      assert a + b == a;
    } else {
      var n := |b| - 1;
      UnsignedConcat(a, b[..n]);
      assert b[..n] + [b[n]] == b && a + b == a + b[..n] + [b[n]];
      UnsignedPush(b[..n], b[n]);
      UnsignedPush(a + b[..n], b[n]);
      RangeNext(n);
      TimesBase(Unsigned(a), Range(n));
    }
  }

  /** The byte expressions of the readers are the unsigned and re-signed numbers. */
  lemma ReadersAgree(buf: seq<Byte>)
    ensures |buf| >= 2 ==> UnpackU16(buf) == Unsigned(buf[..2]) && UnpackI16(buf) == Resigned(Unsigned(buf[..2]), 2)
    ensures |buf| >= 4 ==> UnpackU32(buf) == Unsigned(buf[..4]) && UnpackI32(buf) == Resigned(Unsigned(buf[..4]), 4)
    ensures |buf| >= 8 ==> UnpackU64(buf) == Unsigned(buf[..8]) && UnpackI64(buf) == Resigned(Unsigned(buf[..8]), 8)
  {
    hide Unsigned, Range;
    Ranges();
    if |buf| >= 2 {
      UnsignedOfFour(buf[0], buf[1], 0, 0);
      assert buf[..2] == [buf[0], buf[1]];
    }
    if |buf| >= 4 {
      UnsignedOfFour(buf[0], buf[1], buf[2], buf[3]);
      assert buf[..4] == [buf[0], buf[1], buf[2], buf[3]];
    }
    if |buf| >= 8 {
      UnsignedOfFour(buf[4], buf[5], buf[6], buf[7]);
      assert buf[..8] == buf[..4] + [buf[4], buf[5], buf[6], buf[7]];
      UnsignedConcat(buf[..4], [buf[4], buf[5], buf[6], buf[7]]);
    }
  }

  lemma Ranges()
    ensures Range(1) == 256 && Range(2) == 0x1_0000 && Range(4) == TWO32 && Range(8) == TWO64
  {
    assert Range(3) == 0x100_0000 && Range(4) == TWO32;
    assert Range(6) == 0x1_0000_0000_0000;
  }

  // memcpy of a string into the buffer.
  method CopyIn(buf: array<Byte>, at: nat, s: seq<Byte>)
    requires at + |s| <= buf.Length
    modifies buf
    ensures buf[..] == Written(old(buf[..]), at, s)
  {
    for k := 0 to |s|
      invariant buf[..at] == old(buf[..at]) && buf[at + k..] == old(buf[..])[at + k..]
      invariant buf[at..at + k] == s[..k]
    {
      buf[at + k] := s[k];
    }
  }

  lemma WrittenTwice(buf: seq<Byte>, at: nat, a: seq<Byte>, b: seq<Byte>)
    requires at + |a| + |b| <= |buf|
    ensures |Written(buf, at, a)| == |buf|
    ensures Written(Written(buf, at, a), at + |a|, b) == Written(buf, at, a + b)
  {
    assert Written(buf, at, a)[..at + |a|] == buf[..at] + a;
    assert Written(buf, at, a)[at + |a| + |b|..] == buf[at + |a| + |b|..];
  }

  lemma WrittenOne(buf: seq<Byte>, at: nat, x: Byte)
    requires at < |buf|
    ensures buf[at := x] == Written(buf, at, [x])
  {
  }

  // One case of the switch in pack, for a letter that stands for an argument.
  method PackField(buf: array<Byte>, at: nat, letter: char, a: Arg) returns (n: nat)
    requires Suits(a, Field(letter, 0)) && at + |FieldBytes(Field(letter, 0), a)| <= buf.Length
    modifies buf
    ensures buf[..] == Written(old(buf[..]), at, FieldBytes(Field(letter, 0), a))
    ensures n == |FieldBytes(Field(letter, 0), a)|
  {
    hide IntBytes, Written;
    ghost var was := buf[..];
    match letter
    case 's' =>
      var len := |a.chars|;
      WrittenTwice(was, at, IntBytes(len, 2), a.chars);
      PackI16(buf, at, len);
      CopyIn(buf, at + 2, a.chars);
      n := 2 + len;
    case _ =>
      n := IntWidth(letter);
      IntBytesUnfolded(a.value);
      if n == 1 {
        var low: Byte := a.value % 256;
        WrittenOne(was, at, low);
        buf[at] := low;
        assert buf[..] == was[at := low];
      } else if n == 2 {
        PackI16(buf, at, a.value);
      } else if n == 4 {
        PackI32(buf, at, a.value);
      } else {
        PackI64(buf, at, a.value);
      }
  }

  predicate IsLetter(c: char) {
    IsInt(c) || c == 's'
  }

  // The width that is in force after a character that stands for no argument.
  function NextWidth(width: nat, c: char): nat {
    if IsDigit(c) then AddDigit(width, c) else 0
  }

  lemma LetterIsNoDigit(c: char)
    ensures IsLetter(c) ==> !IsDigit(c)
  {
  }

  lemma FieldsStep(format: string, i: nat, width: nat)
    requires i < |format|
    ensures var c := format[i];
            Fields(format[i..], width) ==
              if IsLetter(c) then [Field(c, width)] + Fields(format[i + 1..], 0)
              else Fields(format[i + 1..], NextWidth(width, c))
  {
    assert format[i..][1..] == format[i + 1..];
  }

  lemma PackStep(fs: seq<Field>, args: seq<Arg>, k: nat, f: Field, rest: seq<Field>)
    requires k <= |args| && Matches(fs, args[k..]) && fs == [f] + rest
    ensures k < |args| && Suits(args[k], Field(f.letter, 0)) && Matches(rest, args[k + 1..])
    ensures Packed(fs, args[k..]) == FieldBytes(Field(f.letter, 0), args[k]) + Packed(rest, args[k + 1..])
  {
    hide IntBytes;
    assert fs[1..] == rest && args[k..][1..] == args[k + 1..];
    forall i | 0 <= i < |rest| ensures Suits(args[k + 1..][i], rest[i]) {
      assert rest[i] == fs[i + 1] && args[k + 1..][i] == args[k..][i + 1];
    }
  }

  lemma WrittenStep(was: seq<Byte>, before: seq<Byte>, now: seq<Byte>, at: nat, bs: seq<Byte>, left: seq<Byte>,
                    all: seq<Byte>)
    requires |was| == |before| && at + |bs| <= |before| && now == Written(before, at, bs)
    requires before[at..] == was[at..] && before[..at] + (bs + left) == all
    ensures now[at + |bs|..] == was[at + |bs|..] && now[..at + |bs|] + left == all
  {
    assert now[..at + |bs|] == before[..at] + bs;
    assert now[at + |bs|..] == before[at..][|bs|..] && was[at + |bs|..] == was[at..][|bs|..];
  }

  /** pack: writes the arguments one after the other at the front of the buffer. */
  method Pack(buf: array<Byte>, format: string, args: seq<Arg>) returns (size: nat)
    requires Supported(format) && Matches(Fields(format, 0), args) && |Packed(Fields(format, 0), args)| <= buf.Length
    modifies buf
    ensures buf[..] == Written(old(buf[..]), 0, Packed(Fields(format, 0), args))
    ensures size == |Packed(Fields(format, 0), args)| % TWO32
  {
    hide Fields, Packed, FieldBytes, Matches, Suits, AddDigit, IsInt;
    ghost var all, was, width := Packed(Fields(format, 0), args), buf[..], 0;
    var k := 0;
    size := 0;
    assert format[0..] == format && args[0..] == args;
    for i := 0 to |format|
      invariant k <= |args| && size <= buf.Length && buf[size..] == was[size..]
      invariant Matches(Fields(format[i..], width), args[k..])
      invariant buf[..size] + Packed(Fields(format[i..], width), args[k..]) == all
    {
      FieldsStep(format, i, width);
      var c := format[i];
      if IsLetter(c) {
        ghost var before, rest := buf[..], Fields(format[i + 1..], 0);
        PackStep(Fields(format[i..], width), args, k, Field(c, width), rest);
        var n := PackField(buf, size, c, args[k]);
        WrittenStep(was, before, buf[..], size, FieldBytes(Field(c, 0), args[k]), Packed(rest, args[k + 1..]), all);
        size, k, width := size + n, k + 1, 0;
      } else {
        width := NextWidth(width, c);
      }
    }
    NothingLeft(format, width, args[k..]);
    assert buf[..size] + [] == buf[..size];
    size := size % TWO32;
  }

  lemma NothingLeft(format: string, width: nat, args: seq<Arg>)
    requires Matches(Fields(format[|format|..], width), args)
    ensures Packed(Fields(format[|format|..], width), args) == []
  {
    assert format[|format|..] == "";
  }

  // A destination after a string has been copied to its front and terminated.
  function Terminated(was: seq<Byte>, s: seq<Byte>): seq<Byte>
    requires |s| < |was|
  {
    s + [0] + was[|s| + 1..]
  }

  // memcpy out of the buffer, and the terminator behind it.
  method CopyOut(dest: array<Byte>, buf: array<Byte>, at: nat, count: nat)
    requires dest != buf && at + count <= buf.Length && count < dest.Length
    modifies dest
    ensures dest[..] == Terminated(old(dest[..]), buf[at..at + count])
  {
    ghost var was := dest[..];
    for k := 0 to count
      invariant forall j :: 0 <= j < k ==> dest[j] == buf[at + j]
      invariant forall j :: k <= j < dest.Length ==> dest[j] == was[j]
    {
      dest[k] := buf[at + k];
    }
    dest[count] := 0;
    assert dest[..count] == buf[at..at + count];
    assert dest[count + 1..] == was[count + 1..];
    assert dest[..] == dest[..count] + [dest[count]] + dest[count + 1..];
  }

  lemma SliceOfSlice(s: seq<Byte>, at: nat, i: nat, j: nat)
    requires i <= j && at + j <= |s|
    ensures s[at..][i..j] == s[at + i..at + j]
  {
  }

  // ---------- Destinations ----------

  // A variable of the caller's.
  class Cell {
    var value: int
  }

  /** What one of unpack's pointers points to. */
  datatype Destination = Number(cell: Cell) | Text(chars: array<Byte>) {
    function Target(): object {
      match this
      case Number(c) => c
      case Text(a) => a
    }
  }

  datatype Content = NumberHeld(value: int) | TextHeld(chars: seq<Byte>)

  function Held(d: Destination): Content
    reads d.Target()
  {
    match d
    case Number(c) => NumberHeld(c.value)
    case Text(a) => TextHeld(a[..])
  }

  // The pointer is of the value's type; a string needs room for its terminator too.
  predicate Takes(d: Destination, a: Arg) {
    if a.Int? then d.Number? else d.Text? && |a.chars| < d.chars.Length
  }

  predicate TakesOver(was: Content, a: Arg) {
    if a.Int? then was.NumberHeld? else was.TextHeld? && |a.chars| < |was.chars|
  }

  // What a destination holds when its field has been read.
  function Received(was: Content, a: Arg): Content
    requires TakesOver(was, a)
  {
    match a
    case Int(value) => NumberHeld(value)
    case Str(chars) => TextHeld(Terminated(was.chars, chars))
  }

  /** One case of the switch in unpack, on a buffer that holds bytes: an integer goes to the variable pointed
      to, a string with its terminator to the front of the array. */
  method UnpackField(buf: array<Byte>, at: nat, letter: char, maxStrLen: nat, dest: Destination, ghost bytes: seq<Byte>)
    returns (n: nat)
    requires bytes == buf[..] && dest.Target() != buf && at <= |bytes|
    requires IsLetter(letter) && HasField(Field(letter, maxStrLen), bytes[at..])
    requires Takes(dest, ReadField(Field(letter, maxStrLen), bytes[at..]))
    modifies dest.Target()
    ensures n == FieldLength(Field(letter, maxStrLen), bytes[at..])
    ensures Held(dest) == Received(old(Held(dest)), ReadField(Field(letter, maxStrLen), bytes[at..]))
  {
    hide Unsigned, Range, Terminated, UnpackI32, UnpackI64, UnpackU32, UnpackU64, UnpackI16, UnpackU16, CopiedCount;
    var rest := buf[at..];
    assert rest == bytes[at..];
    ReadersAgree(rest);
    n := IntWidth(letter);
    match letter
    case 'c' =>
      ByteReader(rest);
      dest.cell.value := if rest[0] <= 0x7f then rest[0] as int else -1 - (0xff - (rest[0] as int));
    case 'C' =>
      ByteReader(rest);
      dest.cell.value := rest[0];
    case 'h' => dest.cell.value := UnpackI16(rest);
    case 'H' => dest.cell.value := UnpackU16(rest);
    case 'l' => dest.cell.value := UnpackI32(rest);
    case 'L' => dest.cell.value := UnpackU32(rest);
    case 'q' => dest.cell.value := UnpackI64(rest);
    case 'Q' => dest.cell.value := UnpackU64(rest);
    case _ =>
      var len := UnpackU16(rest);
      var count := len;
      if maxStrLen > 0 && len > maxStrLen {
        count := maxStrLen - 1;
      }
      CountCopied(len, maxStrLen);
      SliceOfSlice(bytes, at, 2, 2 + count);
      CopyOut(dest.chars, buf, at + 2, count);
      n := 2 + len;
  }

  lemma CountCopied(len: nat, width: nat)
    ensures CopiedCount(len, width) == if width > 0 && len > width then width - 1 else len
  {
  }

  lemma ByteReader(buf: seq<Byte>)
    ensures |buf| >= 1 ==> Unsigned(buf[..1]) == ByteAt(buf, 0) && Range(1) == 256
  {
    if |buf| >= 1 {
      UnsignedOfFour(buf[0], 0, 0, 0);
      assert buf[..1] == [buf[0]];
    }
  }

  lemma UnpackStep(fs: seq<Field>, f: Field, rest: seq<Field>, buf: seq<Byte>, at: nat)
    requires fs == [f] + rest && at <= |buf| && Covers(fs, buf[at..])
    ensures HasField(f, buf[at..]) && at + FieldLength(f, buf[at..]) <= |buf|
    ensures var next := at + FieldLength(f, buf[at..]);
            && Covers(rest, buf[next..])
            && Unpacked(fs, buf[at..]) == [ReadField(f, buf[at..])] + Unpacked(rest, buf[next..])
            && Consumed(fs, buf[at..]) == FieldLength(f, buf[at..]) + Consumed(rest, buf[next..])
  {
    hide HasField, FieldLength, ReadField;
    assert fs[1..] == rest;
    assert buf[at..][FieldLength(f, buf[at..])..] == buf[at + FieldLength(f, buf[at..])..];
  }

  /** One destination of the right type per field, all apart. */
  predicate HaveRoom(dests: seq<Destination>, values: seq<Arg>) {
    && |dests| == |values|
    && (forall i, j :: 0 <= i < j < |dests| ==> dests[i].Target() != dests[j].Target())
    && forall i :: 0 <= i < |dests| ==> Takes(dests[i], values[i])
  }

  ghost function Targets(dests: seq<Destination>): set<object> {
    set d | d in dests :: d.Target()
  }

  ghost function Contents(dests: seq<Destination>): (was: seq<Content>)
    reads Targets(dests)
    ensures |was| == |dests| && forall i :: 0 <= i < |dests| ==> was[i] == Held(dests[i])
  {
    if dests == [] then [] else Contents(dests[..|dests| - 1]) + [Held(dests[|dests| - 1])]
  }

  ghost predicate AllTakeOver(was: seq<Content>, values: seq<Arg>) {
    |was| == |values| && forall i :: 0 <= i < |was| ==> TakesOver(was[i], values[i])
  }

  // The first k destinations have received their values, the others are as they were.
  ghost predicate Filled(dests: seq<Destination>, k: nat, was: seq<Content>, values: seq<Arg>)
    requires |dests| == |was| && AllTakeOver(was, values)
    reads Targets(dests)
  {
    forall i :: 0 <= i < |dests| ==> Held(dests[i]) == if i < k then Received(was[i], values[i]) else was[i]
  }

  // Reads field k into its destination.
  method ReadNext(buf: array<Byte>, at: nat, letter: char, maxStrLen: nat, dests: seq<Destination>, k: nat,
                  ghost bytes: seq<Byte>, ghost was: seq<Content>, ghost values: seq<Arg>)
    returns (n: nat)
    requires bytes == buf[..] && buf !in Targets(dests) && at <= |bytes|
    requires IsLetter(letter) && HasField(Field(letter, maxStrLen), bytes[at..])
    requires HaveRoom(dests, values) && AllTakeOver(was, values) && k < |dests|
    requires values[k] == ReadField(Field(letter, maxStrLen), bytes[at..]) && Filled(dests, k, was, values)
    modifies dests[k].Target()
    ensures n == FieldLength(Field(letter, maxStrLen), bytes[at..])
    ensures Filled(dests, k + 1, was, values)
  {
    hide ReadField, HasField, FieldLength, Received, IsInt, Takes, TakesOver;
    n := UnpackField(buf, at, letter, maxStrLen, dests[k], bytes);
  }

  /** The first i characters of the format are read: used bytes, giving values. What is left gives the rest. */
  ghost predicate Reading(format: string, i: nat, width: nat, bytes: seq<Byte>, used: nat, values: seq<Arg>,
                          all: seq<Arg>, total: nat) {
    && i <= |format| && used <= |bytes| && Covers(Fields(format[i..], width), bytes[used..])
    && values + Unpacked(Fields(format[i..], width), bytes[used..]) == all
    && used + Consumed(Fields(format[i..], width), bytes[used..]) == total
  }

  lemma ReadingStarts(format: string, bytes: seq<Byte>)
    requires Covers(Fields(format, 0), bytes)
    ensures Reading(format, 0, 0, bytes, 0, [], Unpacked(Fields(format, 0), bytes), Consumed(Fields(format, 0), bytes))
  {
    hide Fields, Unpacked, Covers, Consumed;
    assert format[0..] == format && bytes[0..] == bytes;
  }

  lemma ReadingLetter(format: string, i: nat, width: nat, bytes: seq<Byte>, used: nat, values: seq<Arg>,
                      all: seq<Arg>, total: nat)
    requires Reading(format, i, width, bytes, used, values, all, total) && i < |format| && IsLetter(format[i])
    ensures var f := Field(format[i], width);
            && HasField(f, bytes[used..]) && |values| < |all| && all[|values|] == ReadField(f, bytes[used..])
            && Reading(format, i + 1, 0, bytes, used + FieldLength(f, bytes[used..]), values + [all[|values|]], all,
                    total)
  {
    hide Fields, Unpacked, Covers, Consumed, ReadField, HasField, FieldLength, IsInt;
    var f, rest := Field(format[i], width), Fields(format[i + 1..], 0);
    FieldsStep(format, i, width);
    UnpackStep(Fields(format[i..], width), f, rest, bytes, used);
    var a, next := ReadField(f, bytes[used..]), used + FieldLength(f, bytes[used..]);
    assert values + ([a] + Unpacked(rest, bytes[next..])) == values + [a] + Unpacked(rest, bytes[next..]);
  }

  lemma ReadingOther(format: string, i: nat, width: nat, bytes: seq<Byte>, used: nat, values: seq<Arg>,
                     all: seq<Arg>, total: nat)
    requires Reading(format, i, width, bytes, used, values, all, total) && i < |format| && !IsLetter(format[i])
    ensures Reading(format, i + 1, NextWidth(width, format[i]), bytes, used, values, all, total)
  {
    hide Fields, Unpacked, Covers, Consumed, IsInt;
    FieldsStep(format, i, width);
  }

  lemma ReadingEnds(format: string, width: nat, bytes: seq<Byte>, used: nat, values: seq<Arg>, all: seq<Arg>,
                    total: nat)
    requires Reading(format, |format|, width, bytes, used, values, all, total)
    ensures values == all && used == total
  {
    NothingCovered(format, width, bytes[used..]);
  }

  lemma NothingFilled(dests: seq<Destination>, values: seq<Arg>)
    requires HaveRoom(dests, values)
    ensures AllTakeOver(Contents(dests), values) && |dests| == |values|
    ensures Filled(dests, 0, Contents(dests), values)
  {
    forall i | 0 <= i < |dests| ensures TakesOver(Contents(dests)[i], values[i]) {
      assert Takes(dests[i], values[i]);
    }
  }

  lemma AllFilled(dests: seq<Destination>, was: seq<Content>, values: seq<Arg>)
    requires |dests| == |was| && AllTakeOver(was, values) && Filled(dests, |dests|, was, values)
    ensures forall i :: 0 <= i < |dests| ==> Held(dests[i]) == Received(was[i], values[i])
  {
  }

  /** unpack: reads one value per letter; a decimal number in front of a letter limits a string. Each value
      goes where its own pointer points, a string with a terminator behind it and no other byte changed. used
      is how far the position in the buffer has come. */
  method Unpack(buf: array<Byte>, format: string, dests: seq<Destination>) returns (used: nat)
    requires Supported(format) && Covers(Fields(format, 0), buf[..]) && buf !in Targets(dests)
    requires HaveRoom(dests, Unpacked(Fields(format, 0), buf[..]))
    modifies Targets(dests)
    ensures buf[..] == old(buf[..]) && used == Consumed(Fields(format, 0), buf[..])
    ensures var values := Unpacked(Fields(format, 0), buf[..]);
            && AllTakeOver(old(Contents(dests)), values)
            && forall i :: 0 <= i < |dests| ==> Held(dests[i]) == Received(old(Contents(dests))[i], values[i])
  {
    hide Fields, Unpacked, Covers, ReadField, HasField, FieldLength, Consumed, AddDigit, IsInt, Received, HaveRoom;
    hide Reading, Filled, Held, AllTakeOver, Targets;
    var maxStrLen, k := 0, 0;
    used := 0;
    ghost var bytes, was, values: seq<Arg> := buf[..], Contents(dests), [];
    ghost var all, total := Unpacked(Fields(format, 0), bytes), Consumed(Fields(format, 0), bytes);
    ReadingStarts(format, bytes);
    NothingFilled(dests, all);
    for i := 0 to |format|
      invariant buf[..] == bytes && Reading(format, i, maxStrLen, bytes, used, values, all, total)
      invariant k == |values| && Filled(dests, k, was, all)
    {
      var c := format[i];
      LetterIsNoDigit(c);
      ReadingBounds(format, i, maxStrLen, bytes, used, values, all, total);
      if IsLetter(c) {
        ReadingLetter(format, i, maxStrLen, bytes, used, values, all, total);
        TargetIn(dests, k);
        var n := ReadNext(buf, used, c, maxStrLen, dests, k, bytes, was, all);
        values := values + [all[k]];
        used, k := used + n, k + 1;
      } else {
        ReadingOther(format, i, maxStrLen, bytes, used, values, all, total);
        if IsDigit(c) {
          // track max str len
          maxStrLen := AddDigit(maxStrLen, c);
        }
      }
      if !IsDigit(c) {
        maxStrLen := 0;
      }
    }
    ReadingEnds(format, maxStrLen, bytes, used, values, all, total);
    AllFilled(dests, was, all);
  }

  lemma TargetIn(dests: seq<Destination>, k: nat)
    requires k < |dests|
    ensures dests[k].Target() in Targets(dests)
  {
  }

  lemma ReadingBounds(format: string, i: nat, width: nat, bytes: seq<Byte>, used: nat, values: seq<Arg>,
                      all: seq<Arg>, total: nat)
    requires Reading(format, i, width, bytes, used, values, all, total)
    ensures used <= |bytes|
  {
  }

  lemma NothingCovered(format: string, width: nat, buf: seq<Byte>)
    requires Covers(Fields(format[|format|..], width), buf)
    ensures Unpacked(Fields(format[|format|..], width), buf) == [] &&
            Consumed(Fields(format[|format|..], width), buf) == 0
  {
    assert format[|format|..] == "";
  }
}
