/** What each character of a format stands for on the wire, in plain numbers: how many bytes, in which order, and
    which value comes back; and that formats written one after the other act one after the other. */
module WireFormat {
  import opened MachineWords
  import opened Codec

  /** With this format x is written as these bytes, and reading them gives y and leaves nothing over. */
  ghost predicate Carries(format: string, x: Arg, bytes: seq<Byte>, y: Arg) {
    var fs := Fields(format, 0);
    && Supported(format) && Matches(fs, [x]) && Packed(fs, [x]) == bytes
    && Covers(fs, bytes) && Unpacked(fs, bytes) == [y] && Consumed(fs, bytes) == |bytes|
  }

  // ---------- One field ----------

  lemma OneField(f: Field, x: Arg)
    requires Suits(x, f) && (x.Str? ==> |x.chars| <= 65535)
    ensures Matches([f], [x]) && Packed([f], [x]) == FieldBytes(f, x)
    ensures Covers([f], FieldBytes(f, x)) && Consumed([f], FieldBytes(f, x)) == |FieldBytes(f, x)|
    ensures Unpacked([f], FieldBytes(f, x)) == [Restored(f, x)]
  {
    hide FieldBytes, Restored, Unpacked, Covers, Consumed;
    assert [f][1..] == [] && [x][1..] == [] && Packed([f], [x]) == FieldBytes(f, x) + [];
    assert ShortStrings([x]);
    RoundTrip([f], [x], []);
    assert Packed([f], [x]) + [] == FieldBytes(f, x);
    assert Unpacked([f], FieldBytes(f, x))[0] == Restored(f, x);
  }

  lemma IntLetter(c: char)
    requires IsInt(c)
    ensures c != 's' && Supported([c])
  {
  }

  lemma OneLetter(c: char, x: int)
    requires IsInt(c)
    ensures Carries([c], Int(x), IntBytes(x, IntWidth(c)), Int(Reduced(x, IntWidth(c), IsSigned(c))))
  {
    IntLetter(c);
    hide IntBytes, Reduced, IntWidth, Covers, Unpacked, Consumed, Packed, IsInt, IsSigned, Supported, IsDigit;
    assert [c][1..] == "" && Fields([c], 0) == [Field(c, 0)] + [];
    OneField(Field(c, 0), Int(x));
  }

  // The residue of x, or the same less the range where that is in the upper half.
  lemma Residue(x: int, n: nat, r: nat, half: nat)
    requires r == Range(n) == 2 * half
    ensures -(half as int) <= Reduced(x, n, true) < half && (x - Reduced(x, n, true)) % r == 0
    ensures 0 <= Reduced(x, n, false) < r && (x - Reduced(x, n, false)) % r == 0
  {
    hide Range;
    var q, u := x / r, x % r;
    assert x == r * q + u;
    ModuloUnique(x - u, r, q, 0);
    Distribute(r, q, -1);
    ModuloUnique(x - (u - r), r, q + 1, 0);
  }

  /** c and C: one byte. */
  lemma OneByteLetters(x: int) returns (signed: int, unsigned: int)
    ensures Carries("c", Int(x), [x % 256], Int(signed)) && -128 <= signed <= 127 && (x - signed) % 256 == 0
    ensures Carries("C", Int(x), [x % 256], Int(unsigned)) && 0 <= unsigned <= 255 && (x - unsigned) % 256 == 0
  {
    hide Carries, Reduced;
    OneLetter('c', x);
    OneLetter('C', x);
    IntBytesUnfolded(x);
    Ranges();
    Residue(x, 1, 256, 128);
    signed, unsigned := Reduced(x, 1, true), Reduced(x, 1, false);
  }

  /** h and H: two bytes, the higher one first. */
  lemma TwoByteLetters(x: int) returns (signed: int, unsigned: int)
    ensures Carries("h", Int(x), [x / 256 % 256, x % 256], Int(signed))
    ensures -32768 <= signed <= 32767 && (x - signed) % 65536 == 0
    ensures Carries("H", Int(x), [x / 256 % 256, x % 256], Int(unsigned))
    ensures 0 <= unsigned <= 65535 && (x - unsigned) % 65536 == 0
  {
    hide Carries, Reduced;
    OneLetter('h', x);
    OneLetter('H', x);
    IntBytesUnfolded(x);
    Ranges();
    Residue(x, 2, 65536, 32768);
    signed, unsigned := Reduced(x, 2, true), Reduced(x, 2, false);
  }

  /** l and L: four bytes. */
  lemma FourByteLetters(x: int) returns (signed: int, unsigned: int)
    ensures var bytes := [x / 0x100_0000 % 256, x / 0x1_0000 % 256, x / 256 % 256, x % 256];
            Carries("l", Int(x), bytes, Int(signed)) && Carries("L", Int(x), bytes, Int(unsigned))
    ensures -0x8000_0000 <= signed <= 0x7fff_ffff && (x - signed) % 0x1_0000_0000 == 0
    ensures 0 <= unsigned <= 0xffff_ffff && (x - unsigned) % 0x1_0000_0000 == 0
  {
    hide Carries, Reduced;
    OneLetter('l', x);
    OneLetter('L', x);
    IntBytesUnfolded(x);
    Ranges();
    Residue(x, 4, 0x1_0000_0000, 0x8000_0000);
    signed, unsigned := Reduced(x, 4, true), Reduced(x, 4, false);
  }

  /** q and Q: eight bytes. */
  lemma EightByteLetters(x: int) returns (signed: int, unsigned: int)
    ensures var bytes := [x / 0x100_0000_0000_0000 % 256, x / 0x1_0000_0000_0000 % 256,
                          x / 0x100_0000_0000 % 256, x / 0x1_0000_0000 % 256,
                          x / 0x100_0000 % 256, x / 0x1_0000 % 256, x / 256 % 256, x % 256];
            Carries("q", Int(x), bytes, Int(signed)) && Carries("Q", Int(x), bytes, Int(unsigned))
    ensures -0x8000_0000_0000_0000 <= signed <= 0x7fff_ffff_ffff_ffff && (x - signed) % 0x1_0000_0000_0000_0000 == 0
    ensures 0 <= unsigned <= 0xffff_ffff_ffff_ffff && (x - unsigned) % 0x1_0000_0000_0000_0000 == 0
  {
    hide Carries, Reduced, IntBytes;
    OneLetter('q', x);
    OneLetter('Q', x);
    IntBytesOfEight(x);
    IntBytesUnfolded(x);
    assert IntBytes(x, 8) == [x / 0x100_0000_0000_0000 % 256, x / 0x1_0000_0000_0000 % 256,
                              x / 0x100_0000_0000 % 256, x / 0x1_0000_0000 % 256,
                              x / 0x100_0000 % 256, x / 0x1_0000 % 256, x / 256 % 256, x % 256];
    Ranges();
    Residue(x, 8, 0x1_0000_0000_0000_0000, 0x8000_0000_0000_0000);
    signed, unsigned := Reduced(x, 8, true), Reduced(x, 8, false);
  }

  /** s: the length in two bytes and all the characters, whatever the width. */
  lemma StringBytes(digits: string, chars: seq<Byte>)
    requires AllDigits(digits)
    ensures var fs := Fields(digits + "s", 0);
            Matches(fs, [Str(chars)]) && Packed(fs, [Str(chars)]) == [|chars| / 256 % 256, |chars| % 256] + chars
  {
    hide Decimal, AllDigits, IntBytes;
    assert digits + "s" + "" == digits + "s";
    WidthPrefix(digits, "");
    assert Fields("", 0) == [] && Fields(digits + "s", 0) == [Field('s', Decimal(digits) % TWO64)];
    IntBytesUnfolded(|chars|);
    assert [Field('s', Decimal(digits) % TWO64)][1..] == [] && [Str(chars)][1..] == [];
  }

  /** Up to 65535 of them come back, or one less than the width if they are more than that. */
  lemma StringLetter(digits: string, chars: seq<Byte>)
    requires AllDigits(digits) && Decimal(digits) < TWO64 && |chars| <= 65535
    ensures var w := Decimal(digits);
            Carries(digits + "s", Str(chars), [|chars| / 256, |chars| % 256] + chars,
                    Str(if 0 < w < |chars| then chars[..w - 1] else chars))
  {
    hide Covers, Unpacked, Consumed, Packed, Decimal, AllDigits, IntBytes;
    assert digits + "s" + "" == digits + "s";
    WidthPrefix(digits, "");
    var f := Field('s', Decimal(digits));
    assert Fields("", 0) == [] && Fields(digits + "s", 0) == [f];
    DigitsSupported(digits);
    IntBytesUnfolded(|chars|);
    OneField(f, Str(chars));
    assert chars[..|chars|] == chars;
  }

  lemma DigitsSupported(digits: string)
    requires AllDigits(digits)
    ensures Supported(digits + "s")
  {
  }

  // ---------- Whole formats ----------

  /** Any other character stands for nothing, and neither does a number in front of it. */
  lemma OtherCharacter(digits: string, c: char)
    requires AllDigits(digits)
    requires c !in "cChHlLqQfdgs0123456789"
    ensures Fields(digits + [c], 0) == []
  {
    OtherAfter(digits, c, 0);
  }

  lemma {:induction false} OtherAfter(digits: string, c: char, width: nat)
    requires AllDigits(digits)
    requires c !in "cChHlLqQfdgs0123456789"
    ensures Fields(digits + [c], width) == []
  {
    hide AddDigit;
    var format := digits + [c];
    if digits == "" {
      NoDigit(c);
      assert format[0] == c && format[1..] == "";
    } else {
      assert format[0] == digits[0] && format[1..] == digits[1..] + [c];
      OtherAfter(digits[1..], c, AddDigit(width, digits[0]));
    }
  }

  lemma NoDigit(c: char)
    requires c !in "cChHlLqQfdgs0123456789"
    ensures !IsDigit(c) && !IsInt(c) && c != 's'
  {
  }

  predicate EndsInDigit(format: string) {
    format != "" && IsDigit(format[|format| - 1])
  }

  lemma {:induction false} FieldsConcat(a: string, b: string, width: nat)
    requires !EndsInDigit(a)
    ensures Fields(a + b, width) == Fields(a, width) + Fields(b, if a == "" then width else 0)
  {
    hide AddDigit, IsInt;
    if a == "" {
      assert a + b == b;
    } else {
      var c, rest := a[0], a[1..];
      assert (a + b)[0] == c && (a + b)[1..] == rest + b;
      FieldsConcat(rest, b, if IsInt(c) || c == 's' then 0 else if IsDigit(c) then AddDigit(width, c) else 0);
    }
  }

  lemma MatchesTail(fs: seq<Field>, xs: seq<Arg>)
    requires Matches(fs, xs) && fs != []
    ensures |xs| > 0 && Suits(xs[0], fs[0]) && Matches(fs[1..], xs[1..])
  {
    hide Suits;
    forall i | 0 <= i < |fs[1..]| ensures Suits(xs[1..][i], fs[1..][i]) {
      assert fs[1..][i] == fs[i + 1] && xs[1..][i] == xs[i + 1];
    }
  }

  lemma MatchesHead(f: Field, x: Arg, fs: seq<Field>, xs: seq<Arg>)
    requires Suits(x, f) && Matches(fs, xs)
    ensures Matches([f] + fs, [x] + xs) && Packed([f] + fs, [x] + xs) == FieldBytes(f, x) + Packed(fs, xs)
  {
    hide Suits, FieldBytes;
    var gs, ys := [f] + fs, [x] + xs;
    assert gs[1..] == fs && ys[1..] == xs;
    forall i | 0 <= i < |gs| ensures Suits(ys[i], gs[i]) {
      assert i > 0 ==> gs[i] == fs[i - 1] && ys[i] == xs[i - 1];
    }
  }

  lemma {:induction false} PackedConcat(fs: seq<Field>, xs: seq<Arg>, gs: seq<Field>, ys: seq<Arg>)
    requires Matches(fs, xs) && Matches(gs, ys)
    ensures Matches(fs + gs, xs + ys) && Packed(fs + gs, xs + ys) == Packed(fs, xs) + Packed(gs, ys)
  {
    hide FieldBytes, Suits, Matches, Packed;
    if fs == [] {
      NothingPacked(xs);
      assert fs + gs == gs && xs + ys == ys;
    } else {
      MatchesTail(fs, xs);
      PackedConcat(fs[1..], xs[1..], gs, ys);
      assert [fs[0]] + fs[1..] == fs && [xs[0]] + xs[1..] == xs;
      MatchesHead(fs[0], xs[0], fs[1..], xs[1..]);
      MatchesHead(fs[0], xs[0], fs[1..] + gs, xs[1..] + ys);
      assert [fs[0]] + (fs[1..] + gs) == fs + gs && [xs[0]] + (xs[1..] + ys) == xs + ys;
      assert FieldBytes(fs[0], xs[0]) + (Packed(fs[1..], xs[1..]) + Packed(gs, ys)) ==
             FieldBytes(fs[0], xs[0]) + Packed(fs[1..], xs[1..]) + Packed(gs, ys);
    }
  }

  lemma NothingPacked(xs: seq<Arg>)
    requires Matches([], xs)
    ensures xs == [] && Packed([], xs) == []
  {
  }

  lemma CoversHead(f: Field, fs: seq<Field>, buf: seq<Byte>)
    ensures Covers([f] + fs, buf) <==> HasField(f, buf) && Covers(fs, buf[FieldLength(f, buf)..])
    ensures Covers([f] + fs, buf) ==>
              var left := buf[FieldLength(f, buf)..];
              && Unpacked([f] + fs, buf) == [ReadField(f, buf)] + Unpacked(fs, left)
              && Consumed([f] + fs, buf) == FieldLength(f, buf) + Consumed(fs, left)
  {
    hide HasField, FieldLength, ReadField;
    assert ([f] + fs)[1..] == fs;
  }

  lemma SuffixOfSuffix(buf: seq<Byte>, k: nat, n: nat)
    requires k + n <= |buf|
    ensures buf[k..][n..] == buf[k + n..]
  {
  }

  lemma NoFields(buf: seq<Byte>)
    ensures Covers([], buf) && Unpacked([], buf) == [] && Consumed([], buf) == 0 && buf[0..] == buf
  {
  }

  lemma {:induction false} UnpackedConcat(fs: seq<Field>, gs: seq<Field>, buf: seq<Byte>)
    requires Covers(fs, buf) && Consumed(fs, buf) <= |buf| && Covers(gs, buf[Consumed(fs, buf)..])
    ensures var n := Consumed(fs, buf);
            && Covers(fs + gs, buf) && Unpacked(fs + gs, buf) == Unpacked(fs, buf) + Unpacked(gs, buf[n..])
            && Consumed(fs + gs, buf) == n + Consumed(gs, buf[n..])
  {
    hide HasField, FieldLength, ReadField, Covers, Unpacked, Consumed;
    if fs == [] {
      NoFields(buf);
      assert fs + gs == gs;
    } else {
      var f, rest := fs[0], fs[1..];
      assert [f] + rest == fs && [f] + (rest + gs) == fs + gs;
      CoversHead(f, rest, buf);
      CoversHead(f, rest + gs, buf);
      var k := FieldLength(f, buf);
      SuffixOfSuffix(buf, k, Consumed(rest, buf[k..]));
      UnpackedConcat(rest, gs, buf[k..]);
      var tail := buf[Consumed(fs, buf)..];
      assert [ReadField(f, buf)] + (Unpacked(rest, buf[k..]) + Unpacked(gs, tail)) ==
             [ReadField(f, buf)] + Unpacked(rest, buf[k..]) + Unpacked(gs, tail);
    }
  }

  lemma {:induction false} ConsumedWithin(fs: seq<Field>, buf: seq<Byte>)
    requires Covers(fs, buf)
    ensures Consumed(fs, buf) <= |buf|
  {
    hide HasField, FieldLength, ReadField;
    if fs != [] {
      ConsumedWithin(fs[1..], buf[FieldLength(fs[0], buf)..]);
    }
  }

  /** Two formats written one after the other, the first not ending in a digit, pack the first arguments and
      then the second ones, and unpack what each of them would. */
  lemma FormatsConcatenate(a: string, xs: seq<Arg>, b: string, ys: seq<Arg>, buf: seq<Byte>)
    requires !EndsInDigit(a) && Matches(Fields(a, 0), xs) && Matches(Fields(b, 0), ys)
    ensures Matches(Fields(a + b, 0), xs + ys)
    ensures Packed(Fields(a + b, 0), xs + ys) == Packed(Fields(a, 0), xs) + Packed(Fields(b, 0), ys)
    ensures Covers(Fields(a, 0), buf) ==> Consumed(Fields(a, 0), buf) <= |buf|
    ensures Covers(Fields(a, 0), buf) && Covers(Fields(b, 0), buf[Consumed(Fields(a, 0), buf)..]) ==>
              var n := Consumed(Fields(a, 0), buf);
              && Covers(Fields(a + b, 0), buf)
              && Unpacked(Fields(a + b, 0), buf) == Unpacked(Fields(a, 0), buf) + Unpacked(Fields(b, 0), buf[n..])
              && Consumed(Fields(a + b, 0), buf) == n + Consumed(Fields(b, 0), buf[n..])
  {
    hide Fields, Packed, Unpacked, Covers, Consumed, Matches;
    FieldsConcat(a, b, 0);
    PackedConcat(Fields(a, 0), xs, Fields(b, 0), ys);
    if Covers(Fields(a, 0), buf) {
      ConsumedWithin(Fields(a, 0), buf);
      if Covers(Fields(b, 0), buf[Consumed(Fields(a, 0), buf)..]) {
        UnpackedConcat(Fields(a, 0), Fields(b, 0), buf);
      }
    }
  }
}
