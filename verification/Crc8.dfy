/** The CRC-8 (polynomial 0x31, initial value 0xFF) that guards every sensor reading. */
module Crc8 {

  const POLY: bv8 := 0x31
  const INIT: bv8 := 0xFF
  const BITS: nat := 8

  type Message = seq<bv8>

  /** One bit of the division. */
  function Shift(x: bv8): (r: bv8) {
    if x & 0x80 != 0 then (x << 1) ^ POLY else x << 1
  }

  function Shifts(x: bv8, n: nat): (r: bv8) {
    if n == 0 then x else Shift(Shifts(x, n - 1))
  }

  /** The eight divisions that fold one message byte in. */
  function Byte(x: bv8): (r: bv8) {
    Shifts(x, BITS)
  }

  function Fold(crc: bv8, x: bv8): (r: bv8) {
    Byte(crc ^ x)
  }

  function Crc(start: bv8, m: Message): (r: bv8) {
    if m == [] then start else Fold(Crc(start, m[..|m| - 1]), m[|m| - 1])
  }

  /** The loop of the LP program and of the SHT4x driver. */
  method ComputeSht4x(data: Message) returns (crc: bv8)
    ensures crc == Crc(INIT, data)
  {
    crc := INIT;
    for i := 0 to |data|
      invariant crc == Crc(INIT, data[..i])
    {
      crc := crc ^ data[i];
      ghost var folded := crc;
      for bit := 0 to BITS
        invariant crc == Shifts(folded, bit)
      {
        crc := if crc & 0x80 != 0 then (crc << 1) ^ POLY else crc << 1;
      }
      assert data[..i + 1][..i] == data[..i];
    }
    assert data[..|data|] == data;
  }

  /** The SHT3x driver's loop: it shifts first and remembers the bit that fell out. */
  method ComputeSht3x(data: Message) returns (crc: bv8)
    ensures crc == Crc(INIT, data)
  {
    crc := INIT;
    for i := 0 to |data|
      invariant crc == Crc(INIT, data[..i])
    {
      crc := crc ^ data[i];
      ghost var folded := crc;
      for bit := 0 to BITS
        invariant crc == Shifts(folded, bit)
      {
        var carry := crc & 0x80 != 0;
        crc := crc << 1;
        crc := if carry then crc ^ POLY else crc;
      }
      assert data[..i + 1][..i] == data[..i];
    }
    assert data[..|data|] == data;
  }

  /** The check of one measurement: two bytes and their CRC, twice. */
  method FrameOk(raw: Message) returns (ok: bool)
    requires |raw| == 6
    ensures ok <==> Crc(INIT, raw[..3]) == 0 && Crc(INIT, raw[3..]) == 0
  {
    var first := ComputeSht4x(raw[..2]);
    var second := ComputeSht4x(raw[3..5]);
    ResidueIsZero(raw[..2], raw[2]);
    ResidueIsZero(raw[3..5], raw[5]);
    assert raw[..3] == raw[..2] + [raw[2]] && raw[3..] == raw[3..5] + [raw[5]];
    ok := raw[2] == first && raw[5] == second;
  }

  lemma ShlXor(x: bv8, y: bv8)
    ensures (x ^ y) << 1 == (x << 1) ^ (y << 1)
    ensures (x ^ y) & 0x80 != 0 <==> ((x & 0x80 != 0) != (y & 0x80 != 0))
  {
  }

  lemma XorRegroup(x: bv8, y: bv8, p: bv8, q: bv8)
    ensures (x ^ y) ^ (p ^ q) == (x ^ p) ^ (y ^ q)
    ensures (x ^ p) ^ (y ^ p) == x ^ y
    ensures (x ^ p) ^ y == (x ^ y) ^ p && x ^ (y ^ p) == (x ^ y) ^ p
  {
  }

  lemma XorZero(x: bv8, y: bv8)
    ensures x ^ y == x <==> y == 0
    ensures x ^ y == 0 <==> x == y
    ensures x ^ 0 == x
  {
  }

  lemma ShiftLinear(x: bv8, y: bv8)
    ensures Shift(x ^ y) == Shift(x) ^ Shift(y)
  {
    ShlXor(x, y);
    XorRegroup(x << 1, y << 1, POLY, 0);
  }

  lemma {:induction false} ShiftsLinear(x: bv8, y: bv8, n: nat)
    ensures Shifts(x ^ y, n) == Shifts(x, n) ^ Shifts(y, n)
  {
    if n > 0 {
      ShiftsLinear(x, y, n - 1);
      ShiftLinear(Shifts(x, n - 1), Shifts(y, n - 1));
    }
  }

  lemma ShiftInjective(x: bv8)
    ensures Shift(x) == 0 <==> x == 0
  {
  }

  lemma {:induction false} ShiftsInjective(x: bv8, n: nat)
    ensures Shifts(x, n) == 0 <==> x == 0
  {
    if n > 0 {
      ShiftsInjective(x, n - 1);
      ShiftInjective(Shifts(x, n - 1));
    }
  }

  function Xor(m: Message, e: Message): (r: Message)
    requires |m| == |e|
    ensures |r| == |m|
  {
    if m == [] then [] else Xor(m[..|m| - 1], e[..|e| - 1]) + [m[|m| - 1] ^ e[|e| - 1]]
  }

  lemma FoldLinear(c: bv8, p: bv8, q: bv8, x: bv8, y: bv8)
    requires c == p ^ q
    ensures Fold(c, x ^ y) == Fold(p, x) ^ Fold(q, y)
  {
    XorRegroup(p, q, x, y);
    ShiftsLinear(p ^ x, q ^ y, BITS);
  }

  lemma CrcSnoc(start: bv8, m: Message, x: bv8)
    ensures Crc(start, m + [x]) == Fold(Crc(start, m), x)
  {
    assert (m + [x])[..|m|] == m;
  }

  lemma XorSnoc(a: bv8, m: Message, e: Message, x: bv8, y: bv8)
    requires |m| == |e|
    ensures Crc(a, Xor(m + [x], e + [y])) == Fold(Crc(a, Xor(m, e)), x ^ y)
  {
    assert (m + [x])[..|m|] == m && (e + [y])[..|e|] == e;
    CrcSnoc(a, Xor(m, e), x ^ y);
  }

  lemma CrcLinearStep(a: bv8, m: Message, e: Message, x: bv8, y: bv8)
    requires |m| == |e| && Crc(a, Xor(m, e)) == Crc(a, m) ^ Crc(0, e)
    ensures Crc(a, Xor(m + [x], e + [y])) == Crc(a, m + [x]) ^ Crc(0, e + [y])
  {
    calc {
      Crc(a, Xor(m + [x], e + [y]));
    == { XorSnoc(a, m, e, x, y); }
      Fold(Crc(a, Xor(m, e)), x ^ y);
    == { FoldLinear(Crc(a, Xor(m, e)), Crc(a, m), Crc(0, e), x, y); }
      Fold(Crc(a, m), x) ^ Fold(Crc(0, e), y);
    == { CrcSnoc(a, m, x); CrcSnoc(0, e, y); }
      Crc(a, m + [x]) ^ Crc(0, e + [y]);
    }
  }

  /** Affine-linear: what an error pattern does to the CRC depends neither on the message nor on the start. */
  lemma {:induction false} CrcLinear(a: bv8, m: Message, e: Message)
    requires |m| == |e|
    ensures Crc(a, Xor(m, e)) == Crc(a, m) ^ Crc(0, e)
  {
    if m == [] {
      XorZero(a, 0);
    } else {
      var n := |m| - 1;
      CrcLinear(a, m[..n], e[..n]);
      CrcLinearStep(a, m[..n], e[..n], m[n], e[n]);
      assert m[..n] + [m[n]] == m && e[..n] + [e[n]] == e;
    }
  }

  /** A received message passes exactly when its error pattern is a multiple of the polynomial. */
  lemma ErrorSeenIff(m: Message, e: Message)
    requires |m| == |e|
    ensures Crc(INIT, Xor(m, e)) == Crc(INIT, m) <==> Crc(0, e) == 0
  {
    CrcLinear(INIT, m, e);
    XorZero(Crc(INIT, m), Crc(0, e));
  }

  /** Appending a byte leaves residue zero exactly when that byte is the CRC. */
  lemma ResidueIsZero(m: Message, c: bv8)
    ensures Crc(INIT, m + [c]) == 0 <==> c == Crc(INIT, m)
  {
    assert (m + [c])[..|m|] == m;
    ShiftsInjective(Crc(INIT, m) ^ c, BITS);
    XorZero(Crc(INIT, m), c);
  }

  predicate Bit(x: bv8, mask: bv8) {
    x & mask != 0
  }

  /** An odd number of bits is set in the byte. */
  predicate Odd(x: bv8) {
    ((Bit(x, 1) != Bit(x, 2)) != (Bit(x, 4) != Bit(x, 8)))
    != ((Bit(x, 16) != Bit(x, 32)) != (Bit(x, 64) != Bit(x, 128)))
  }

  /** Whether an odd number of bits is set in the whole pattern. */
  predicate OddWeight(e: Message) {
    if e == [] then false else OddWeight(e[..|e| - 1]) != Odd(e[|e| - 1])
  }

  lemma OddXor(x: bv8, y: bv8)
    ensures Odd(x ^ y) <==> Odd(x) != Odd(y)
  {
  }

  lemma ShiftKeepsParity(x: bv8)
    ensures Odd(Shift(x)) <==> Odd(x)
  {
  }

  lemma {:induction false} ShiftsKeepParity(x: bv8, n: nat)
    ensures Odd(Shifts(x, n)) <==> Odd(x)
  {
    if n > 0 {
      ShiftsKeepParity(x, n - 1);
      ShiftKeepsParity(Shifts(x, n - 1));
    }
  }

  lemma FoldParity(crc: bv8, x: bv8)
    ensures Odd(Fold(crc, x)) <==> Odd(crc) != Odd(x)
  {
    OddXor(crc, x);
    ShiftsKeepParity(crc ^ x, BITS);
  }

  lemma {:induction false} CrcKeepsParity(e: Message)
    ensures Odd(Crc(0, e)) <==> OddWeight(e)
  {
    if e != [] {
      CrcKeepsParity(e[..|e| - 1]);
      FoldParity(Crc(0, e[..|e| - 1]), e[|e| - 1]);
    }
  }

  /** Every error that flips an odd number of bits, one bit above all, changes the CRC. */
  lemma OddErrorsDetected(m: Message, e: Message)
    requires |m| == |e| && OddWeight(e)
    ensures Crc(INIT, Xor(m, e)) != Crc(INIT, m)
  {
    CrcKeepsParity(e);
    ErrorSeenIff(m, e);
  }

  lemma {:induction false} ZeroPattern(e: Message)
    requires forall k :: 0 <= k < |e| ==> e[k] == 0
    ensures Crc(0, e) == 0
  {
    if e != [] {
      ZeroPattern(e[..|e| - 1]);
      ShiftsInjective(0, BITS);
      XorZero(Crc(0, e[..|e| - 1]), 0);
    }
  }

  /** Trailing zeros cannot turn a nonzero remainder into zero. */
  lemma {:induction false} ZeroTail(e: Message, n: nat)
    requires n <= |e| && forall k :: n <= k < |e| ==> e[k] == 0
    ensures Crc(0, e) == 0 <==> Crc(0, e[..n]) == 0
    decreases |e| - n
  {
    if n < |e| {
      assert e[..n + 1] == e[..n] + [e[n]];
      CrcSnoc(0, e[..n], e[n]);
      ShiftsInjective(Crc(0, e[..n]), BITS);
      XorZero(Crc(0, e[..n]), 0);
      ZeroTail(e, n + 1);
    } else {
      assert e[..n] == e;
    }
  }

  lemma FoldZero(x: bv8)
    ensures Fold(0, x) == 0 <==> x == 0
  {
    XorZero(0, x);
    ShiftsInjective(0 ^ x, BITS);
  }

  /** Every error confined to one byte, whichever of its bits it flips, changes the CRC. */
  lemma OneByteErrorsDetected(m: Message, e: Message, i: nat)
    requires |m| == |e| && i < |e| && e[i] != 0
    requires forall k :: 0 <= k < |e| && k != i ==> e[k] == 0
    ensures Crc(INIT, Xor(m, e)) != Crc(INIT, m)
  {
    ZeroPattern(e[..i]);
    assert e[..i + 1] == e[..i] + [e[i]];
    CrcSnoc(0, e[..i], e[i]);
    FoldZero(e[i]);
    ZeroTail(e, i + 1);
    ErrorSeenIff(m, e);
  }

  /** The check value the sensors' datasheets give for this polynomial and initial value. */
  lemma DatasheetCheckValue()
    ensures Crc(INIT, [0xBE, 0xEF]) == 0x92
  {
    var m: Message := [0xBE, 0xEF];
    assert m[..1] == [0xBE] && m[..1][..0] == [];
    assert Crc(INIT, m[..1]) == Byte(0xFF ^ 0xBE);
    EightShifts(0x41);
    EightShifts(Byte(0x41) ^ 0xEF);
  }

  lemma EightShifts(x: bv8)
    ensures Byte(x) == Shift(Shift(Shift(Shift(Shift(Shift(Shift(Shift(x))))))))
  {
    assert Shifts(x, 1) == Shift(Shifts(x, 0)) == Shift(x);
    assert Shifts(x, 2) == Shift(Shifts(x, 1));
    assert Shifts(x, 3) == Shift(Shifts(x, 2));
    assert Shifts(x, 4) == Shift(Shifts(x, 3));
    assert Shifts(x, 5) == Shift(Shifts(x, 4));
    assert Shifts(x, 6) == Shift(Shifts(x, 5));
    assert Shifts(x, 7) == Shift(Shifts(x, 6));
    assert Shifts(x, 8) == Shift(Shifts(x, 7));
  }
}
