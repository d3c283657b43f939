/**
 The base64 codec of base64_util.h: two accumulator loops over a register that is shifted and
 never masked, proved equal to the block definition of section 4 of RFC 4648 for a register of
 any width from 12 bits up, 32-bit `int` included.
 */
module Base64 {
  import opened Powers

  type byte = x: int | 0 <= x < 256
  type sextet = x: int | 0 <= x < 64

  const UPPER := "ABCDEFGHIJKLMNOPQRSTUVWXYZ"
  const LOWER := "abcdefghijklmnopqrstuvwxyz"
  const ALPHABET: string := UPPER + LOWER + "0123456789+/"

  /** Character of a sextet, by ranges. */
  function CharOf(i: sextet): (c: char)
    ensures IndexOf(c) == i
  {
    if i < 26 then 'A' + i as char
    else if i < 52 then 'a' + (i - 26) as char
    else if i < 62 then '0' + (i - 52) as char
    else if i == 62 then '+'
    else '/'
  }

  /** Value of a character of the alphabet, or -1. */
  function IndexOf(c: char): (i: int)
    ensures -1 <= i < 64
  {
    if 'A' <= c <= 'Z' then c as int - 'A' as int
    else if 'a' <= c <= 'z' then c as int - 'a' as int + 26
    else if '0' <= c <= '9' then c as int - '0' as int + 52
    else if c == '+' then 62
    else if c == '/' then 63
    else -1
  }

  lemma AlphabetByRanges(i: sextet)
    ensures |ALPHABET| == 64 && ALPHABET[i] == CharOf(i)
  {
  }

  lemma CharOfIndex(c: char)
    requires IndexOf(c) != -1
    ensures CharOf(IndexOf(c)) == c
  {
  }

  // ---- the register ----

  /** What a shifted value becomes when it is stored. */
  type Register = int -> int

  /** A 32-bit `int`: left shifts keep the low 32 bits, read as two's complement. */
  function Wrap32(x: int): (r: int)
    ensures -0x8000_0000 <= r < 0x8000_0000
  {
    (x + 0x8000_0000) % 0x1_0000_0000 - 0x8000_0000
  }

  function Unbounded(x: int): int {
    x
  }

  ghost predicate Keeps12Bits(reg: Register) {
    forall x :: reg(x) % 4096 == x % 4096
  }

  lemma BothKeep12Bits()
    ensures Keeps12Bits(Wrap32) && Keeps12Bits(Unbounded)
  {
  }

  /** Adding the byte or sextet to the shifted register never overflows. */
  lemma AddNeverOverflows(val: int, c: byte)
    ensures -0x8000_0000 <= Wrap32(val * 256) + c < 0x8000_0000
    ensures c < 64 ==> -0x8000_0000 <= Wrap32(val * 64) + c < 0x8000_0000
  {
    hide Wrap32;
    var k := WrapBytes(val);
    var l := WrapSextets(val);
    RoomForByte(k, c);
    if c < 64 {
      RoomForSextet(l, c);
    }
  }

  lemma WrapBytes(val: int) returns (k: int)
    ensures Wrap32(val * 256) == 256 * k
  {
    k := val - 0x100_0000 * ((val * 256 + 0x8000_0000) / 0x1_0000_0000);
  }

  lemma WrapSextets(val: int) returns (k: int)
    ensures Wrap32(val * 64) == 64 * k
  {
    k := val - 0x400_0000 * ((val * 64 + 0x8000_0000) / 0x1_0000_0000);
  }

  lemma RoomForByte(k: int, c: int)
    requires 256 * k < 0x8000_0000 && c < 256
    ensures 256 * k + c < 0x8000_0000
  {
    assert k <= 0x7F_FFFF;
  }

  lemma RoomForSextet(k: int, c: int)
    requires 64 * k < 0x8000_0000 && c < 64
    ensures 64 * k + c < 0x8000_0000
  {
    assert k <= 0x1FF_FFFF;
  }

  /** `(val >> k) & (m - 1)` for a power of two `m`: arithmetic shift, then mask. */
  function ShiftMask(val: int, k: nat, m: int): (r: int)
    requires m > 0
    ensures 0 <= r < m
  {
    (val / Power(2, k)) % m
  }

  // ---- the encoder as it runs ----

  datatype Enc = Enc(val: int, valb: int, out: string)

  /** `while (valb >= 0)`: emit six bits at a time. */
  function Drain(a: Enc): (r: Enc)
    ensures r.valb < 0 && r.val == a.val
    decreases a.valb
  {
    if a.valb < 0 then a
    else Drain(Enc(a.val, a.valb - 6, a.out + [CharOf(ShiftMask(a.val, a.valb, 64))]))
  }

  function EncByte(reg: Register, a: Enc, c: byte): Enc {
    Drain(Enc(reg(a.val * 256) + c, a.valb + 8, a.out))
  }

  function EncBytes(reg: Register, s: seq<byte>): Enc {
    if s == [] then Enc(0, -6, "") else EncByte(reg, EncBytes(reg, s[..|s| - 1]), s[|s| - 1])
  }

  /** The bits left over, filled up with zeros. */
  function EncTail(reg: Register, a: Enc): string {
    if a.valb > -6 then a.out + [CharOf(ShiftMask(reg(a.val * 256), a.valb + 8, 64))] else a.out
  }

  function PadFour(out: string): (r: string)
    ensures |r| % 4 == 0
  {
    if |out| % 4 == 0 then out
    else if |out| % 4 == 3 then out + "="
    else if |out| % 4 == 2 then out + "=="
    else out + "==="
  }

  function Encode(reg: Register, s: seq<byte>): string {
    PadFour(EncTail(reg, EncBytes(reg, s)))
  }

  method Base64Encode(input: seq<byte>) returns (out: string)
    ensures out == Encode(Wrap32, input)
  {
    hide Wrap32, ShiftMask, CharOf, IndexOf, ALPHABET, Drain;
    out := "";
    var val, valb := 0, -6;
    for i := 0 to |input|
      invariant Enc(val, valb, out) == EncBytes(Wrap32, input[..i])
      invariant -0x8000_0000 <= val < 0x8000_0000
      invariant valb < 0
    {
      var c := input[i];
      assert input[..i + 1][..i] == input[..i];
      AddNeverOverflows(val, c);
      val := Wrap32(val * 256) + c;
      valb := valb + 8;
      valb, out := DrainBits(val, valb, out);
    }
    assert input[..|input|] == input;
    if valb > -6 {
      AlphabetByRanges(ShiftMask(Wrap32(val * 256), valb + 8, 64));
      out := out + [ALPHABET[ShiftMask(Wrap32(val * 256), valb + 8, 64)]];
    }
    out := PadWithEquals(out);
  }

  /** `while (valb >= 0)`. */
  method DrainBits(val: int, valb0: int, out0: string) returns (valb: int, out: string)
    ensures Enc(val, valb, out) == Drain(Enc(val, valb0, out0))
  {
    hide ShiftMask, CharOf, IndexOf, ALPHABET;
    valb, out := valb0, out0;
    while valb >= 0
      invariant Drain(Enc(val, valb, out)) == Drain(Enc(val, valb0, out0))
      decreases valb
    {
      AlphabetByRanges(ShiftMask(val, valb, 64));
      out := out + [ALPHABET[ShiftMask(val, valb, 64)]];
      valb := valb - 6;
    }
  }

  /** `while (out.size() % 4 != 0)`. */
  method PadWithEquals(out0: string) returns (out: string)
    ensures out == PadFour(out0)
  {
    out := out0;
    while |out| % 4 != 0
      invariant PadFour(out) == PadFour(out0)
      decreases (4 - |out| % 4) % 4
    {
      PadOne(out);
      out := out + ['='];
    }
  }

  lemma PadOne(out: string)
    requires |out| % 4 != 0
    ensures PadFour(out + ['=']) == PadFour(out)
  {
  }

  // ---- the decoder as it runs ----

  datatype Dec = Dec(val: int, valb: int, out: seq<byte>)

  function DecSextet(reg: Register, a: Dec, t: sextet): Dec {
    var val := reg(a.val * 64) + t;
    var valb := a.valb + 6;
    if valb >= 0 then Dec(val, valb - 8, a.out + [ShiftMask(val, valb, 256)]) else Dec(val, valb, a.out)
  }

  function DecChar(reg: Register, a: Dec, c: char): Dec {
    if IndexOf(c) == -1 then a else DecSextet(reg, a, IndexOf(c))
  }

  function DecChars(reg: Register, s: string): Dec {
    if s == "" then Dec(0, -8, []) else DecChar(reg, DecChars(reg, s[..|s| - 1]), s[|s| - 1])
  }

  function Decode(reg: Register, s: string): seq<byte> {
    DecChars(reg, s).out
  }

  /** The table `T`: -1 except at the 64 characters of the alphabet. */
  method BuildTable() returns (table: array<int>)
    ensures fresh(table) && table.Length == 256
    ensures forall c: char :: c as int < 256 ==> table[c as int] == IndexOf(c)
  {
    table := new int[256](_ => -1);
    for i := 0 to 64
      invariant forall c: char :: c as int < 256 ==> table[c as int] == if IndexOf(c) < i then IndexOf(c) else -1
    {
      AlphabetByRanges(i);
      table[ALPHABET[i] as int] := i;
      forall c: char | c as int < 256
        ensures table[c as int] == if IndexOf(c) < i + 1 then IndexOf(c) else -1
      {
        if IndexOf(c) == i {
          CharOfIndex(c);
        }
      }
    }
  }

  /** The input is a C++ string: every character is one byte. */
  method Base64Decode(input: string) returns (out: seq<byte>)
    requires forall i :: 0 <= i < |input| ==> input[i] as int < 256
    ensures out == Decode(Wrap32, input)
  {
    hide Wrap32, ShiftMask, IndexOf;
    out := [];
    var table := BuildTable();
    var val, valb := 0, -8;
    for i := 0 to |input|
      invariant Dec(val, valb, out) == DecChars(Wrap32, input[..i])
      invariant -0x8000_0000 <= val < 0x8000_0000
      invariant forall c: char :: c as int < 256 ==> table[c as int] == IndexOf(c)
    {
      var c := input[i];
      assert input[..i + 1][..i] == input[..i];
      assert table[c as int] == IndexOf(c);
      if table[c as int] == -1 {
        continue;
      }
      AddNeverOverflows(val, table[c as int]);
      val := Wrap32(val * 64) + table[c as int];
      valb := valb + 6;
      if valb >= 0 {
        out := out + [ShiftMask(val, valb, 256)];
        valb := valb - 8;
      }
    }
    assert input[..|input|] == input;
  }

  // ---- section 4 of RFC 4648 ----

  // The four sextets of three bytes.

  function S0(a: byte): (t: sextet) {
    a / 4
  }

  function S1(a: byte, b: byte): (t: sextet) {
    a % 4 * 16 + b / 16
  }

  function S2(b: byte, c: byte): (t: sextet) {
    b % 16 * 4 + c / 64
  }

  function S3(c: byte): (t: sextet) {
    c % 64
  }

  // The three bytes of four sextets.

  function B0(p: int, t: int): (b: byte)
    requires 0 <= p < 64 && 0 <= t < 64
  {
    p * 4 + t / 16
  }

  function B1(p: int, t: int): (b: byte)
    requires 0 <= p < 64 && 0 <= t < 64
  {
    p % 16 * 16 + t / 4
  }

  function B2(p: int, t: int): (b: byte)
    requires 0 <= p < 64 && 0 <= t < 64
  {
    p % 4 * 64 + t
  }

  lemma BytesOfSextets(a: byte, b: byte, c: byte)
    ensures B0(S0(a), S1(a, b)) == a
    ensures B1(S1(a, b), S2(b, c)) == b
    ensures B2(S2(b, c), S3(c)) == c
  {
  }

  /** 24-bit groups of three bytes become four characters; a final group is padded with `=`. */
  function Rfc4648(s: seq<byte>): string
    decreases |s|
  {
    if |s| == 0 then ""
    else if |s| == 1 then [CharOf(S0(s[0])), CharOf(S1(s[0], 0)), '=', '=']
    else if |s| == 2 then [CharOf(S0(s[0])), CharOf(S1(s[0], s[1])), CharOf(S2(s[1], 0)), '=']
    else Block(s[0], s[1], s[2]) + Rfc4648(s[3..])
  }

  function Block(a: byte, b: byte, c: byte): string {
    [CharOf(S0(a)), CharOf(S1(a, b)), CharOf(S2(b, c)), CharOf(S3(c))]
  }

  /** Groups of four sextets become three bytes; leftover bits of a final group are dropped. */
  function Rfc4648Bytes(t: seq<sextet>): seq<byte>
    decreases |t|
  {
    if |t| < 2 then []
    else if |t| == 2 then [B0(t[0], t[1])]
    else if |t| == 3 then [B0(t[0], t[1]), B1(t[1], t[2])]
    else [B0(t[0], t[1]), B1(t[1], t[2]), B2(t[2], t[3])] + Rfc4648Bytes(t[4..])
  }

  /** The sextets of a text, everything outside the alphabet skipped. */
  function Sextets(s: string): seq<sextet> {
    if s == "" then []
    else if IndexOf(s[0]) == -1 then Sextets(s[1..])
    else [IndexOf(s[0])] + Sextets(s[1..])
  }

  lemma {:induction false} Rfc4648Append(s: seq<byte>, t: seq<byte>)
    requires |s| % 3 == 0
    ensures Rfc4648(s + t) == Rfc4648(s) + Rfc4648(t)
    decreases |s|
  {
    hide S0, S1, S2, S3, CharOf, Block;
    if s == [] {
      assert s + t == t;
    } else {
      var u := s + t;
      assert u[3..] == s[3..] + t;
      assert Rfc4648(u) == Block(u[0], u[1], u[2]) + Rfc4648(u[3..]);
      assert Rfc4648(s) == Block(s[0], s[1], s[2]) + Rfc4648(s[3..]);
      Rfc4648Append(s[3..], t);
    }
  }

  lemma Rfc4648Block(a: byte, b: byte, c: byte)
    ensures Rfc4648([a, b, c]) == Block(a, b, c)
  {
  }

  lemma {:induction false} SextetsAppend(a: string, b: string)
    ensures Sextets(a + b) == Sextets(a) + Sextets(b)
  {
    if a == "" {
      assert a + b == b;
    } else {
      assert (a + b)[1..] == a[1..] + b;
      SextetsAppend(a[1..], b);
    }
  }

  function Group(t: seq<sextet>): seq<byte>
    requires |t| >= 4
  {
    [B0(t[0], t[1]), B1(t[1], t[2]), B2(t[2], t[3])]
  }

  lemma FirstGroup(t: seq<sextet>)
    requires |t| >= 4
    ensures Rfc4648Bytes(t) == Group(t) + Rfc4648Bytes(t[4..])
  {
  }

  lemma {:induction false} Rfc4648BytesAppend(t: seq<sextet>, u: seq<sextet>)
    requires |t| % 4 == 0
    ensures Rfc4648Bytes(t + u) == Rfc4648Bytes(t) + Rfc4648Bytes(u)
    decreases |t|
  {
    hide Rfc4648Bytes, Group;
    if t == [] {
      NoBytes();
      assert t + u == u && [] + Rfc4648Bytes(u) == Rfc4648Bytes(u);
    } else {
      FirstGroup(t);
      FirstGroup(t + u);
      GroupOfAppend(t, u);
      Rfc4648BytesAppend(t[4..], u);
      Regroup(Group(t), Rfc4648Bytes(t[4..]), Rfc4648Bytes(u));
    }
  }

  lemma NoBytes()
    ensures Rfc4648Bytes([]) == []
  {
  }

  lemma GroupOfAppend(t: seq<sextet>, u: seq<sextet>)
    requires |t| >= 4
    ensures Group(t + u) == Group(t) && (t + u)[4..] == t[4..] + u
  {
    hide B0, B1, B2;
  }

  lemma Regroup(a: seq<byte>, b: seq<byte>, c: seq<byte>)
    ensures a + (b + c) == a + b + c
  {
  }

  // ---- arithmetic of the low bits ----

  lemma TimesOutward(m: int, k: int)
    requires m > 0
    ensures k >= 1 ==> m * k >= m
    ensures k <= -1 ==> m * k <= -m
    ensures k >= 0 ==> m * k >= 0
  {
  }

  lemma Divides(x: int, m: int, q: int, r: int)
    requires 0 <= r < m && x == m * q + r
    ensures x / m == q && x % m == r
  {
    var d, e := x / m, x % m;
    assert m * (d - q) == r - e;
    TimesOutward(m, d - q);
  }

  lemma ModOfMod(x: int, m: int, k: int)
    requires m > 0 && k > 0 && m * k > 0
    ensures x % (m * k) % m == x % m
  {
    var q, r := x / (m * k), x % (m * k);
    assert x == m * k * q + r && r == m * (r / m) + r % m;
    assert m * k * q == m * (k * q);
    assert x == m * (k * q + r / m) + r % m;
    Divides(x, m, k * q + r / m, r % m);
  }

  lemma AddLow(r: int, c: int, m: int, low: int)
    requires m > 0 && r % m == low && 0 <= low + c < m
    ensures (r + c) % m == low + c
  {
    assert r == m * (r / m) + low;
    Divides(r + c, m, r / m, low + c);
  }

  lemma QuotientBelow(r: int, m: int, k: int)
    requires m > 0 && 0 <= r < m * k
    ensures 0 <= r / m < k
  {
  }

  /** Shifting by a power and masking reads the low bits only. */
  lemma ShiftThenMask(val: int, m: int, k: int)
    requires m > 0 && k > 0 && m * k > 0
    ensures val / m % k == val % (m * k) / m
  {
    var n := m * k;
    var q, r := val / n, val % n;
    QuotientBelow(r, m, k);
    var u, v := r / m, r % m;
    assert val == n * q + r && r == m * u + v;
    assert n * q == m * (k * q);
    assert val == m * (k * q + u) + v;
    Divides(val, m, k * q + u, v);
    Divides(k * q + u, k, q, u);
  }

  lemma ScaledMod(val: int, m: int, shift: int)
    requires m > 0 && shift > 0 && m * shift > 0
    ensures val * shift % (m * shift) == val % m * shift
  {
    var q, r := val / m, val % m;
    assert val == m * q + r;
    assert val * shift == m * shift * q + r * shift;
    assert 0 <= r * shift < m * shift;
    Divides(val * shift, m * shift, q, r * shift);
  }

  lemma LowBits(x: int, y: int, n: int)
    requires n == 64 || n == 256 || n == 1024 || n == 4096
    requires x % 4096 == y % 4096
    ensures x % n == y % n
  {
    if n == 64 {
      ModOfMod(x, 64, 64);
      ModOfMod(y, 64, 64);
    } else if n == 256 {
      ModOfMod(x, 256, 16);
      ModOfMod(y, 256, 16);
    } else if n == 1024 {
      ModOfMod(x, 1024, 4);
      ModOfMod(y, 1024, 4);
    }
  }

  /** What is in the low bits after shifting in `c`: the pending bits, then `c`. */
  lemma ShiftIn(reg: Register, val: int, m: int, shift: int, c: int)
    requires Keeps12Bits(reg) && 0 <= c < shift && m > 0
    requires m * shift == 64 || m * shift == 256 || m * shift == 1024 || m * shift == 4096
    ensures (reg(val * shift) + c) % (m * shift) == val % m * shift + c
  {
    hide Keeps12Bits;
    var n, stored := m * shift, reg(val * shift);
    StoredLow(reg, val * shift);
    LowBits(stored, val * shift, n);
    ScaledMod(val, m, shift);
    BelowScaled(val % m, m, shift, c);
    AddLow(stored, c, n, val % m * shift);
  }

  lemma StoredLow(reg: Register, x: int)
    requires Keeps12Bits(reg)
    ensures reg(x) % 4096 == x % 4096
  {
  }

  lemma BelowScaled(x: int, m: int, shift: int, c: int)
    requires 0 <= x < m && 0 <= c < shift
    ensures 0 <= x * shift && x * shift + c < m * shift
  {
    assert x * shift <= (m - 1) * shift;
    assert (m - 1) * shift == m * shift - shift;
  }

  lemma PowersOfTwo()
    ensures Power(2, 0) == 1 && Power(2, 2) == 4 && Power(2, 4) == 16 && Power(2, 6) == 64
  {
  }

  /** What the shift-and-mask of the two loops reads, in terms of the low bits. */
  lemma Emit(val: int, k: nat, m: int)
    requires k in {0, 2, 4, 6} && m > 0
    ensures ShiftMask(val, k, m) == val % (Power(2, k) * m) / Power(2, k)
  {
    PowersOfTwo();
    ShiftThenMask(val, Power(2, k), m);
  }

  // ---- the encoder is the block definition ----

  /** After the groups of `head`, `tail` tells how many bits are pending and which. */
  ghost predicate EncState(head: seq<byte>, tail: seq<byte>, a: Enc) {
    && |head| % 3 == 0 && |tail| < 3
    && a.valb == -6 + 2 * |tail|
    && (|tail| == 0 ==> a.out == Rfc4648(head))
    && (|tail| == 1 ==> a.out == Rfc4648(head) + [CharOf(S0(tail[0]))] && a.val % 4 == tail[0] % 4)
    && (|tail| == 2 ==> a.out == Rfc4648(head) + [CharOf(S0(tail[0])), CharOf(S1(tail[0], tail[1]))]
                        && a.val % 16 == tail[1] % 16)
  }

  lemma DrainOnce(a: Enc, x: sextet)
    requires 0 <= a.valb < 6 && ShiftMask(a.val, a.valb, 64) == x
    ensures Drain(a) == Enc(a.val, a.valb - 6, a.out + [CharOf(x)])
  {
  }

  lemma DrainTwice(a: Enc, x: sextet, y: sextet)
    requires a.valb == 6 && ShiftMask(a.val, 6, 64) == x && ShiftMask(a.val, 0, 64) == y
    ensures Drain(a) == Enc(a.val, -6, a.out + [CharOf(x), CharOf(y)])
  {
    hide ShiftMask, CharOf;
    var b := Enc(a.val, 0, a.out + [CharOf(x)]);
    assert Drain(a) == Drain(b);
    DrainOnce(b, y);
    assert a.out + [CharOf(x)] + [CharOf(y)] == a.out + [CharOf(x), CharOf(y)];
  }

  /** First byte of a group. */
  lemma EncFirst(reg: Register, a: Enc, c: byte)
    requires Keeps12Bits(reg) && a.valb == -6
    ensures var r := EncByte(reg, a, c);
      r.valb == -4 && r.val % 4 == c % 4 && r.out == a.out + [CharOf(S0(c))]
  {
    hide Keeps12Bits, CharOf, ShiftMask, Drain;
    var val := reg(a.val * 256) + c;
    ShiftIn(reg, a.val, 1, 256, c);
    ModOfMod(val, 4, 64);
    PowersOfTwo();
    Emit(val, 2, 64);
    DrainOnce(Enc(val, 2, a.out), S0(c));
  }

  /** Second byte of a group. */
  lemma EncSecond(reg: Register, a: Enc, b: byte, c: byte)
    requires Keeps12Bits(reg) && a.valb == -4 && a.val % 4 == b % 4
    ensures var r := EncByte(reg, a, c);
      r.valb == -2 && r.val % 16 == c % 16 && r.out == a.out + [CharOf(S1(b, c))]
  {
    hide Keeps12Bits, CharOf, ShiftMask, Drain;
    var val := reg(a.val * 256) + c;
    ShiftIn(reg, a.val, 4, 256, c);
    ModOfMod(val, 16, 64);
    Divides(b % 4 * 256 + c, 16, b % 4 * 16 + c / 16, c % 16);
    PowersOfTwo();
    Emit(val, 4, 64);
    DrainOnce(Enc(val, 4, a.out), S1(b, c));
  }

  /** Third byte of a group: two characters come out. */
  lemma EncThird(reg: Register, a: Enc, b: byte, c: byte)
    requires Keeps12Bits(reg) && a.valb == -2 && a.val % 16 == b % 16
    ensures var r := EncByte(reg, a, c);
      r.valb == -6 && r.out == a.out + [CharOf(S2(b, c)), CharOf(S3(c))]
  {
    hide Keeps12Bits, CharOf, ShiftMask, Drain;
    var val := reg(a.val * 256) + c;
    ShiftIn(reg, a.val, 16, 256, c);
    ModOfMod(val, 64, 64);
    Divides(b % 16 * 256 + c, 64, b % 16 * 4 + c / 64, c % 64);
    PowersOfTwo();
    Emit(val, 6, 64);
    Emit(val, 0, 64);
    DrainTwice(Enc(val, 6, a.out), S2(b, c), S3(c));
  }

  lemma {:induction false} EncInvariant(reg: Register, s: seq<byte>) returns (head: seq<byte>, tail: seq<byte>)
    requires Keeps12Bits(reg)
    ensures s == head + tail && EncState(head, tail, EncBytes(reg, s))
    decreases |s|
  {
    hide S0, S1, S2, S3, CharOf, EncByte, Rfc4648, Keeps12Bits;
    if s == [] {
      head, tail := [], [];
      EmptyEncoding();
    } else {
      var c := s[|s| - 1];
      head, tail := EncInvariant(reg, s[..|s| - 1]);
      EncStep(reg, head, tail, EncBytes(reg, s[..|s| - 1]), c);
      if |tail| < 2 {
        tail := tail + [c];
      } else {
        head, tail := head + [tail[0], tail[1], c], [];
      }
    }
  }

  lemma StepFromNone(reg: Register, head: seq<byte>, a: Enc, c: byte)
    requires Keeps12Bits(reg) && EncState(head, [], a)
    ensures EncState(head, [c], EncByte(reg, a, c))
  {
    hide S0, CharOf, EncByte, Rfc4648, Keeps12Bits;
    EncFirst(reg, a, c);
  }

  lemma StepFromOne(reg: Register, head: seq<byte>, x: byte, a: Enc, c: byte)
    requires Keeps12Bits(reg) && EncState(head, [x], a)
    ensures EncState(head, [x, c], EncByte(reg, a, c))
  {
    hide S0, S1, CharOf, EncByte, Rfc4648, Keeps12Bits;
    EncSecond(reg, a, x, c);
    assert a.out + [CharOf(S1(x, c))] == Rfc4648(head) + [CharOf(S0(x)), CharOf(S1(x, c))];
  }

  lemma StepFromTwo(reg: Register, head: seq<byte>, x: byte, y: byte, a: Enc, c: byte)
    requires Keeps12Bits(reg) && EncState(head, [x, y], a)
    ensures EncState(head + [x, y, c], [], EncByte(reg, a, c))
  {
    hide S0, S1, S2, S3, CharOf, EncByte, Rfc4648, Keeps12Bits;
    EncThird(reg, a, y, c);
    BlockDone(head, x, y, c, a.out);
  }

  lemma EncStep(reg: Register, head: seq<byte>, tail: seq<byte>, a: Enc, c: byte)
    requires Keeps12Bits(reg) && EncState(head, tail, a) && |tail| < 3
    ensures |tail| < 2 ==> EncState(head, tail + [c], EncByte(reg, a, c))
    ensures |tail| == 2 ==> EncState(head + [tail[0], tail[1], c], [], EncByte(reg, a, c))
  {
    hide *;
    if |tail| == 0 {
      StepFromNone(reg, head, a, c);
      assert tail + [c] == [c];
    } else if |tail| == 1 {
      assert tail == [tail[0]] && tail + [c] == [tail[0], c];
      StepFromOne(reg, head, tail[0], a, c);
    } else {
      assert tail == [tail[0], tail[1]];
      StepFromTwo(reg, head, tail[0], tail[1], a, c);
    }
  }

  lemma BlockDone(head: seq<byte>, x: byte, y: byte, z: byte, out: string)
    requires |head| % 3 == 0 && out == Rfc4648(head) + [CharOf(S0(x)), CharOf(S1(x, y))]
    ensures Rfc4648(head + [x, y, z]) == out + [CharOf(S2(y, z)), CharOf(S3(z))]
  {
    hide S0, S1, S2, S3, CharOf, Rfc4648;
    Rfc4648Append(head, [x, y, z]);
    Rfc4648Block(x, y, z);
  }

  lemma EmptyEncoding()
    ensures Rfc4648([]) == ""
  {
  }

  /** For every byte string and every register of at least 12 bits, the encoder writes what the RFC says. */
  lemma EncoderIsRfc4648(reg: Register, s: seq<byte>)
    requires Keeps12Bits(reg)
    ensures Encode(reg, s) == Rfc4648(s)
  {
    hide EncState, EncBytes, Rfc4648, Keeps12Bits, EncTail, PadFour;
    var head, tail := EncInvariant(reg, s);
    HeadLength(head, tail, EncBytes(reg, s));
    TailWritten(reg, head, tail, EncBytes(reg, s));
    Rfc4648Append(head, tail);
  }

  lemma HeadLength(head: seq<byte>, tail: seq<byte>, a: Enc)
    requires EncState(head, tail, a)
    ensures |head| % 3 == 0 && |tail| < 3 && |Rfc4648(head)| % 4 == 0
  {
    hide Rfc4648, CharOf, S0, S1;
    WholeGroups(head);
  }

  lemma WholeGroups(s: seq<byte>)
    ensures |Rfc4648(s)| % 4 == 0
  {
    hide Rfc4648;
    Rfc4648Length(s);
  }

  /** The bits left over and the padding are what the RFC makes of an unfinished group. */
  lemma TailWritten(reg: Register, head: seq<byte>, tail: seq<byte>, a: Enc)
    requires Keeps12Bits(reg) && EncState(head, tail, a)
    ensures PadFour(EncTail(reg, a)) == Rfc4648(head) + Rfc4648(tail)
  {
    hide S0, S1, S2, S3, CharOf, Rfc4648, Keeps12Bits, EncTail, PadFour;
    HeadLength(head, tail, a);
    if |tail| == 0 {
      TailOfNone(reg, a);
      EmptyEncoding();
    } else if |tail| == 1 {
      assert tail == [tail[0]];
      TailOfOne(reg, a, tail[0]);
      TwoPads(EncTail(reg, a));
      assert EncTail(reg, a) + "==" == Rfc4648(head) + Rfc4648(tail);
    } else {
      assert tail == [tail[0], tail[1]];
      TailOfTwo(reg, a, tail[0], tail[1]);
      OnePad(EncTail(reg, a));
      assert EncTail(reg, a) + "=" == Rfc4648(head) + Rfc4648(tail);
    }
  }

  lemma TailOfNone(reg: Register, a: Enc)
    requires a.valb == -6 && |a.out| % 4 == 0
    ensures PadFour(EncTail(reg, a)) == a.out
  {
  }

  lemma TailOfOne(reg: Register, a: Enc, b: byte)
    requires Keeps12Bits(reg) && a.valb == -4 && a.val % 4 == b % 4
    ensures EncTail(reg, a) == a.out + [CharOf(S1(b, 0))]
    ensures Rfc4648([b]) == [CharOf(S0(b)), CharOf(S1(b, 0)), '=', '=']
  {
    hide CharOf, ShiftMask, Rfc4648, S0, S1, Keeps12Bits;
    LastOfOne(reg, a.val, b);
    OneByte(b);
  }

  lemma OneByte(b: byte)
    ensures Rfc4648([b]) == [CharOf(S0(b)), CharOf(S1(b, 0)), '=', '=']
  {
    hide CharOf, S0, S1;
  }

  lemma LastOfOne(reg: Register, val: int, b: byte)
    requires Keeps12Bits(reg) && val % 4 == b % 4
    ensures ShiftMask(reg(val * 256), 4, 64) == S1(b, 0)
  {
    hide ShiftMask, Keeps12Bits;
    ShiftIn(reg, val, 4, 256, 0);
    PowersOfTwo();
    Emit(reg(val * 256), 4, 64);
  }

  lemma TailOfTwo(reg: Register, a: Enc, b: byte, c: byte)
    requires Keeps12Bits(reg) && a.valb == -2 && a.val % 16 == c % 16
    ensures EncTail(reg, a) == a.out + [CharOf(S2(c, 0))]
    ensures Rfc4648([b, c]) == [CharOf(S0(b)), CharOf(S1(b, c)), CharOf(S2(c, 0)), '=']
  {
    hide CharOf, ShiftMask, Rfc4648, S0, S1, S2, Keeps12Bits;
    LastOfTwo(reg, a.val, c);
    TwoBytes(b, c);
  }

  lemma TwoBytes(b: byte, c: byte)
    ensures Rfc4648([b, c]) == [CharOf(S0(b)), CharOf(S1(b, c)), CharOf(S2(c, 0)), '=']
  {
    hide CharOf, S0, S1, S2;
  }

  lemma LastOfTwo(reg: Register, val: int, c: byte)
    requires Keeps12Bits(reg) && val % 16 == c % 16
    ensures ShiftMask(reg(val * 256), 6, 64) == S2(c, 0)
  {
    hide ShiftMask, Keeps12Bits;
    ShiftIn(reg, val, 16, 256, 0);
    PowersOfTwo();
    Emit(reg(val * 256), 6, 64);
  }

  lemma OnePad(out: string)
    requires |out| % 4 == 3
    ensures PadFour(out) == out + "="
  {
  }

  lemma TwoPads(out: string)
    requires |out| % 4 == 2
    ensures PadFour(out) == out + "=="
  {
  }

  lemma {:induction false} Rfc4648Length(s: seq<byte>)
    ensures |Rfc4648(s)| == (|s| + 2) / 3 * 4
    decreases |s|
  {
    hide CharOf, S0, S1, S2, S3;
    if |s| < 3 {
    } else {
      Rfc4648Length(s[3..]);
    }
  }

  // ---- the decoder is the block definition ----

  /** After the groups of `head`, `tail` tells how many bits are pending and which. */
  ghost predicate DecState(head: seq<sextet>, tail: seq<sextet>, a: Dec) {
    var n := |tail|;
    && |head| % 4 == 0 && n < 4
    && a.out == Rfc4648Bytes(head) + Rfc4648Bytes(tail)
    && (n == 0 ==> a.valb == -8)
    && (n == 1 ==> a.valb == -2 && a.val % 64 == tail[0])
    && (n == 2 ==> a.valb == -4 && a.val % 16 == tail[1] % 16)
    && (n == 3 ==> a.valb == -6 && a.val % 4 == tail[2] % 4)
  }

  // The four steps of a group of sextets.

  lemma DecFirst(reg: Register, a: Dec, t: sextet)
    requires Keeps12Bits(reg) && a.valb == -8
    ensures var r := DecSextet(reg, a, t); r.valb == -2 && r.val % 64 == t && r.out == a.out
  {
    hide Keeps12Bits;
    ShiftIn(reg, a.val, 1, 64, t);
  }

  lemma DecSecond(reg: Register, a: Dec, prev: sextet, t: sextet)
    requires Keeps12Bits(reg) && a.valb == -2 && a.val % 64 == prev
    ensures var r := DecSextet(reg, a, t);
      r.valb == -4 && r.val % 16 == t % 16 && r.out == a.out + [B0(prev, t)]
  {
    hide Keeps12Bits, ShiftMask;
    var val := reg(a.val * 64) + t;
    ShiftIn(reg, a.val, 64, 64, t);
    ModOfMod(val, 16, 256);
    Divides(prev * 64 + t, 16, prev * 4 + t / 16, t % 16);
    PowersOfTwo();
    Emit(val, 4, 256);
  }

  lemma DecThird(reg: Register, a: Dec, prev: sextet, t: sextet)
    requires Keeps12Bits(reg) && a.valb == -4 && a.val % 16 == prev % 16
    ensures var r := DecSextet(reg, a, t);
      r.valb == -6 && r.val % 4 == t % 4 && r.out == a.out + [B1(prev, t)]
  {
    hide Keeps12Bits, ShiftMask;
    var val := reg(a.val * 64) + t;
    ShiftIn(reg, a.val, 16, 64, t);
    ModOfMod(val, 4, 256);
    Divides(prev % 16 * 64 + t, 4, prev % 16 * 16 + t / 4, t % 4);
    PowersOfTwo();
    Emit(val, 2, 256);
  }

  lemma DecFourth(reg: Register, a: Dec, prev: sextet, t: sextet)
    requires Keeps12Bits(reg) && a.valb == -6 && a.val % 4 == prev % 4
    ensures var r := DecSextet(reg, a, t);
      r.valb == -8 && r.out == a.out + [B2(prev, t)]
  {
    hide Keeps12Bits, ShiftMask, B2;
    FourthByte(reg, a.val, prev, t);
  }

  lemma FourthByte(reg: Register, val: int, prev: sextet, t: sextet)
    requires Keeps12Bits(reg) && val % 4 == prev % 4
    ensures ShiftMask(reg(val * 64) + t, 0, 256) == B2(prev, t)
  {
    hide Keeps12Bits, ShiftMask;
    ShiftIn(reg, val, 4, 64, t);
    MaskOnly(reg(val * 64) + t, 256);
  }

  /** A shift by nothing. */
  lemma MaskOnly(val: int, m: int)
    requires m > 0
    ensures ShiftMask(val, 0, m) == val % m
  {
    PowersOfTwo();
  }

  /** The bytes of an unfinished group, one more sextet at a time. */
  lemma BytesOfGroup(t: seq<sextet>)
    ensures |t| < 2 ==> Rfc4648Bytes(t) == []
    ensures |t| == 2 ==> Rfc4648Bytes(t) == [B0(t[0], t[1])]
    ensures |t| == 3 ==> Rfc4648Bytes(t) == [B0(t[0], t[1]), B1(t[1], t[2])]
    ensures |t| == 4 ==> Rfc4648Bytes(t) == [B0(t[0], t[1]), B1(t[1], t[2]), B2(t[2], t[3])]
  {
  }

  lemma {:induction false} DecInvariant(reg: Register, s: string) returns (head: seq<sextet>, tail: seq<sextet>)
    requires Keeps12Bits(reg)
    ensures Sextets(s) == head + tail && DecState(head, tail, DecChars(reg, s))
    decreases |s|
  {
    hide B0, B1, B2, Rfc4648Bytes, IndexOf, DecSextet, Keeps12Bits;
    if s == "" {
      head, tail := [], [];
      BytesOfGroup([]);
    } else {
      var p, c := s[..|s| - 1], s[|s| - 1];
      head, tail := DecInvariant(reg, p);
      assert s == p + [c] && [c] + [] == [c];
      SextetsAppend(p, [c]);
      SextetsHead(c, []);
      if IndexOf(c) != -1 {
        var x: sextet := IndexOf(c);
        assert Sextets(s) == head + tail + [x];
        DecStep(reg, head, tail, DecChars(reg, p), x);
        if |tail| < 3 {
          tail := tail + [x];
        } else {
          head, tail := head + [tail[0], tail[1], tail[2], x], [];
        }
      } else {
        assert Sextets(s) == head + tail;
      }
    }
  }

  lemma DecStep(reg: Register, head: seq<sextet>, tail: seq<sextet>, a: Dec, x: sextet)
    requires Keeps12Bits(reg) && DecState(head, tail, a)
    ensures |tail| < 3 ==> DecState(head, tail + [x], DecSextet(reg, a, x))
    ensures |tail| == 3 ==> DecState(head + [tail[0], tail[1], tail[2], x], [], DecSextet(reg, a, x))
  {
    hide B0, B1, B2, Rfc4648Bytes, DecSextet, Keeps12Bits;
    BytesOfGroup(tail);
    if |tail| == 0 {
      DecFirst(reg, a, x);
      BytesOfGroup(tail + [x]);
    } else if |tail| == 1 {
      DecSecond(reg, a, tail[0], x);
      BytesOfGroup(tail + [x]);
    } else if |tail| == 2 {
      DecThird(reg, a, tail[1], x);
      BytesOfGroup(tail + [x]);
    } else {
      DecFourth(reg, a, tail[2], x);
      var group := [tail[0], tail[1], tail[2], x];
      BytesOfGroup(group);
      BytesOfGroup([]);
      Rfc4648BytesAppend(head, group);
    }
  }

  function SextetsOfChar(c: char): seq<sextet> {
    if IndexOf(c) == -1 then [] else [IndexOf(c)]
  }

  lemma SextetsHead(c: char, rest: string)
    ensures Sextets([c] + rest) == SextetsOfChar(c) + Sextets(rest)
  {
  }

  /** For every text and every register of at least 12 bits, the decoder reads what the RFC says. */
  lemma DecoderIsRfc4648(reg: Register, s: string)
    requires Keeps12Bits(reg)
    ensures Decode(reg, s) == Rfc4648Bytes(Sextets(s))
  {
    var head, tail := DecInvariant(reg, s);
    Rfc4648BytesAppend(head, tail);
  }

  // ---- consequences ----

  /** The overflow of the never-masked 32-bit register is invisible in both directions. */
  lemma OverflowIsHarmless(s: seq<byte>, text: string)
    ensures Encode(Wrap32, s) == Encode(Unbounded, s)
    ensures Decode(Wrap32, text) == Decode(Unbounded, text)
  {
    BothKeep12Bits();
    EncoderIsRfc4648(Wrap32, s);
    EncoderIsRfc4648(Unbounded, s);
    DecoderIsRfc4648(Wrap32, text);
    DecoderIsRfc4648(Unbounded, text);
  }

  lemma SextetsOfBlock(a: sextet, b: sextet, c: sextet, d: sextet)
    ensures Sextets([CharOf(a), CharOf(b), CharOf(c), CharOf(d)]) == [a, b, c, d]
    ensures Sextets([CharOf(a), CharOf(b), CharOf(c), '=']) == [a, b, c]
    ensures Sextets([CharOf(a), CharOf(b), '=', '=']) == [a, b]
  {
    SextetsOfFour(CharOf(a), CharOf(b), CharOf(c), CharOf(d));
    SextetsOfFour(CharOf(a), CharOf(b), CharOf(c), '=');
    SextetsOfFour(CharOf(a), CharOf(b), '=', '=');
  }

  lemma SextetsOfFour(w: char, x: char, y: char, z: char)
    ensures Sextets([w, x, y, z]) == SextetsOfChar(w) + SextetsOfChar(x) + SextetsOfChar(y) + SextetsOfChar(z)
  {
    SextetsHead(w, [x, y, z]);
    SextetsHead(x, [y, z]);
    SextetsHead(y, [z]);
    SextetsHead(z, []);
    hide SextetsOfChar;
    assert [w] + [x, y, z] == [w, x, y, z] && [x] + [y, z] == [x, y, z] && [y] + [z] == [y, z] && [z] + [] == [z];
  }

  lemma {:induction false} Rfc4648RoundTrip(s: seq<byte>)
    ensures Rfc4648Bytes(Sextets(Rfc4648(s))) == s
    decreases |s|
  {
    hide S0, S1, S2, S3, B0, B1, B2, CharOf;
    if |s| == 0 {
    } else if |s| == 1 {
      SextetsOfBlock(S0(s[0]), S1(s[0], 0), 0, 0);
      BytesOfSextets(s[0], 0, 0);
    } else if |s| == 2 {
      SextetsOfBlock(S0(s[0]), S1(s[0], s[1]), S2(s[1], 0), 0);
      BytesOfSextets(s[0], s[1], 0);
    } else {
      var t := [S0(s[0]), S1(s[0], s[1]), S2(s[1], s[2]), S3(s[2])];
      SextetsOfBlock(t[0], t[1], t[2], t[3]);
      SextetsAppend(Block(s[0], s[1], s[2]), Rfc4648(s[3..]));
      Rfc4648RoundTrip(s[3..]);
      BytesOfSextets(s[0], s[1], s[2]);
      var rest := Sextets(Rfc4648(s[3..]));
      assert (t + rest)[4..] == rest;
      assert s == [s[0], s[1], s[2]] + s[3..];
    }
  }

  /** Decoding what was encoded gives back every byte string, in the 32-bit arithmetic of both. */
  lemma DecodeEncode(s: seq<byte>)
    ensures Decode(Wrap32, Encode(Wrap32, s)) == s
  {
    BothKeep12Bits();
    EncoderIsRfc4648(Wrap32, s);
    DecoderIsRfc4648(Wrap32, Rfc4648(s));
    Rfc4648RoundTrip(s);
  }

  /** An encoding has four characters per three bytes begun, all of the alphabet or `=`. */
  lemma EncodingShape(s: seq<byte>)
    ensures |Encode(Wrap32, s)| == (|s| + 2) / 3 * 4
    ensures forall i :: 0 <= i < |Encode(Wrap32, s)| ==>
              IndexOf(Encode(Wrap32, s)[i]) != -1 || Encode(Wrap32, s)[i] == '='
  {
    BothKeep12Bits();
    EncoderIsRfc4648(Wrap32, s);
    Rfc4648Length(s);
    Rfc4648Chars(s);
  }

  lemma {:induction false} Rfc4648Chars(s: seq<byte>)
    ensures forall i :: 0 <= i < |Rfc4648(s)| ==> IndexOf(Rfc4648(s)[i]) != -1 || Rfc4648(s)[i] == '='
    decreases |s|
  {
    if |s| < 3 {
    } else {
      Rfc4648Chars(s[3..]);
    }
  }
}
