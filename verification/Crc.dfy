/**
 The cyclic redundancy checks of the repository.  OneWire computes CRC-8 with a table or bit by bit and
 CRC-16 with a parity table (Maxim Application Note 27); the firmware update computes the same CRC-16
 bit by bit.
 */
module Crc {

  type bytes = seq<bv8>

  /** A register run over a message by a step function. */
  function Fold<S>(step: (S, bv8) -> S, s: S, m: bytes): S
    decreases |m|
  {
    if m == [] then s else Fold(step, step(s, m[0]), m[1..])
  }

  lemma {:induction false} FoldAppend<S>(step: (S, bv8) -> S, s: S, m: bytes, b: bv8)
    ensures Fold(step, s, m + [b]) == step(Fold(step, s, m), b)
    decreases |m|
  {
    if m == [] {
      assert m + [b] == [b];
    } else {
      assert (m + [b])[1..] == m[1..] + [b];
      FoldAppend(step, step(s, m[0]), m[1..], b);
    }
  }

  lemma {:induction false} FoldSame<S(!new)>(f: (S, bv8) -> S, g: (S, bv8) -> S, s: S, m: bytes)
    requires forall r, b :: f(r, b) == g(r, b)
    ensures Fold(f, s, m) == Fold(g, s, m)
    decreases |m|
  {
    if m != [] {
      FoldSame(f, g, f(s, m[0]), m[1..]);
    }
  }

  /** Neither two registers nor two data bytes are ever confused by a step. */
  ghost predicate Injective<S(!new)>(step: (S, bv8) -> S) {
    && (forall r, s, b :: step(r, b) == step(s, b) ==> r == s)
    && (forall r, b, c :: step(r, b) == step(r, c) ==> b == c)
  }

  lemma {:induction false} FoldInjective<S(!new)>(step: (S, bv8) -> S, r: S, s: S, m: bytes)
    requires Injective(step) && r != s
    ensures Fold(step, r, m) != Fold(step, s, m)
    decreases |m|
  {
    if m != [] {
      var b := m[0];
      assert step(r, b) != step(s, b);
      FoldInjective(step, step(r, b), step(s, b), m[1..]);
    }
  }

  /** Then any change confined to one byte of a message changes the result. */
  lemma {:induction false} FoldDetects<S(!new)>(step: (S, bv8) -> S, s: S, m: bytes, k: nat, b: bv8)
    requires Injective(step) && k < |m| && m[k] != b
    ensures Fold(step, s, m[k := b]) != Fold(step, s, m)
    decreases |m|
  {
    if k == 0 {
      assert m[0 := b][1..] == m[1..];
      FoldInjective(step, step(s, m[0]), step(s, b), m[1..]);
    } else {
      assert m[k := b][1..] == m[1..][k - 1 := b];
      FoldDetects(step, step(s, m[0]), m[1..], k - 1, b);
    }
  }

  // ----- CRC-8 -----

  /** One shift of the CRC-8 register with data bit 0 of inbyte. */
  function Bit8(crc: bv8, inbyte: bv8): bv8 {
    if (crc ^ inbyte) & 1 != 0 then (crc >> 1) ^ 0x8C else crc >> 1
  }

  /** n shifts, taking the n low bits of inbyte, lowest first. */
  function Shift8(crc: bv8, inbyte: bv8, n: nat): bv8
    decreases n
  {
    if n == 0 then crc else Shift8(Bit8(crc, inbyte), inbyte >> 1, n - 1)
  }

  function SerialStep8(crc: bv8, b: bv8): bv8 {
    Shift8(crc, b, 8)
  }

  /** The bit-serial CRC-8 of a message. */
  function Crc8(m: bytes): bv8 {
    Fold(SerialStep8, 0, m)
  }

  /** The loop over the bits of each byte. */
  method Crc8Bitwise(m: bytes) returns (crc: bv8)
    ensures crc == Crc8(m)
  {
    crc := 0;
    for n := 0 to |m|
      invariant crc == Fold(SerialStep8, 0, m[..n])
    {
      FoldAppend(SerialStep8, 0, m[..n], m[n]);
      assert m[..n + 1] == m[..n] + [m[n]];
      crc := Crc8Byte(crc, m[n]);
    }
    assert m[..|m|] == m;
  }

  method Crc8Byte(start: bv8, b: bv8) returns (crc: bv8)
    ensures crc == SerialStep8(start, b)
  {
    crc := start;
    var inbyte, i := b, 8;
    while i > 0
      invariant 0 <= i <= 8 && Shift8(crc, inbyte, i) == Shift8(start, b, 8)
    {
      var mix := (crc ^ inbyte) & 0x01;
      crc := crc >> 1;
      if mix != 0 {
        crc := crc ^ 0x8C;
      }
      inbyte := inbyte >> 1;
      i := i - 1;
    }
  }

  /** dscrc_table, by its rows of 16 entries. */
  function Table(x: bv8): bv8 {
    match x >> 4
    case 0 => Row0(x & 15)
    case 1 => Row1(x & 15)
    case 2 => Row2(x & 15)
    case 3 => Row3(x & 15)
    case 4 => Row4(x & 15)
    case 5 => Row5(x & 15)
    case 6 => Row6(x & 15)
    case 7 => Row7(x & 15)
    case 8 => Row8(x & 15)
    case 9 => Row9(x & 15)
    case 10 => Row10(x & 15)
    case 11 => Row11(x & 15)
    case 12 => Row12(x & 15)
    case 13 => Row13(x & 15)
    case 14 => Row14(x & 15)
    case _ => Row15(x & 15)
  }

  function Row0(y: bv8): bv8 {
    match y
    case 0 => 0 case 1 => 94 case 2 => 188 case 3 => 226 case 4 => 97 case 5 => 63 case 6 => 221 case 7 => 131
    case 8 => 194 case 9 => 156 case 10 => 126 case 11 => 32 case 12 => 163 case 13 => 253 case 14 => 31 case _ => 65
  }
  function Row1(y: bv8): bv8 {
    match y
    case 0 => 157 case 1 => 195 case 2 => 33 case 3 => 127 case 4 => 252 case 5 => 162 case 6 => 64 case 7 => 30
    case 8 => 95 case 9 => 1 case 10 => 227 case 11 => 189 case 12 => 62 case 13 => 96 case 14 => 130 case _ => 220
  }
  function Row2(y: bv8): bv8 {
    match y
    case 0 => 35 case 1 => 125 case 2 => 159 case 3 => 193 case 4 => 66 case 5 => 28 case 6 => 254 case 7 => 160
    case 8 => 225 case 9 => 191 case 10 => 93 case 11 => 3 case 12 => 128 case 13 => 222 case 14 => 60 case _ => 98
  }
  function Row3(y: bv8): bv8 {
    match y
    case 0 => 190 case 1 => 224 case 2 => 2 case 3 => 92 case 4 => 223 case 5 => 129 case 6 => 99 case 7 => 61
    case 8 => 124 case 9 => 34 case 10 => 192 case 11 => 158 case 12 => 29 case 13 => 67 case 14 => 161 case _ => 255
  }
  function Row4(y: bv8): bv8 {
    match y
    case 0 => 70 case 1 => 24 case 2 => 250 case 3 => 164 case 4 => 39 case 5 => 121 case 6 => 155 case 7 => 197
    case 8 => 132 case 9 => 218 case 10 => 56 case 11 => 102 case 12 => 229 case 13 => 187 case 14 => 89 case _ => 7
  }
  function Row5(y: bv8): bv8 {
    match y
    case 0 => 219 case 1 => 133 case 2 => 103 case 3 => 57 case 4 => 186 case 5 => 228 case 6 => 6 case 7 => 88
    case 8 => 25 case 9 => 71 case 10 => 165 case 11 => 251 case 12 => 120 case 13 => 38 case 14 => 196 case _ => 154
  }
  function Row6(y: bv8): bv8 {
    match y
    case 0 => 101 case 1 => 59 case 2 => 217 case 3 => 135 case 4 => 4 case 5 => 90 case 6 => 184 case 7 => 230
    case 8 => 167 case 9 => 249 case 10 => 27 case 11 => 69 case 12 => 198 case 13 => 152 case 14 => 122 case _ => 36
  }
  function Row7(y: bv8): bv8 {
    match y
    case 0 => 248 case 1 => 166 case 2 => 68 case 3 => 26 case 4 => 153 case 5 => 199 case 6 => 37 case 7 => 123
    case 8 => 58 case 9 => 100 case 10 => 134 case 11 => 216 case 12 => 91 case 13 => 5 case 14 => 231 case _ => 185
  }
  function Row8(y: bv8): bv8 {
    match y
    case 0 => 140 case 1 => 210 case 2 => 48 case 3 => 110 case 4 => 237 case 5 => 179 case 6 => 81 case 7 => 15
    case 8 => 78 case 9 => 16 case 10 => 242 case 11 => 172 case 12 => 47 case 13 => 113 case 14 => 147 case _ => 205
  }
  function Row9(y: bv8): bv8 {
    match y
    case 0 => 17 case 1 => 79 case 2 => 173 case 3 => 243 case 4 => 112 case 5 => 46 case 6 => 204 case 7 => 146
    case 8 => 211 case 9 => 141 case 10 => 111 case 11 => 49 case 12 => 178 case 13 => 236 case 14 => 14 case _ => 80
  }
  function Row10(y: bv8): bv8 {
    match y
    case 0 => 175 case 1 => 241 case 2 => 19 case 3 => 77 case 4 => 206 case 5 => 144 case 6 => 114 case 7 => 44
    case 8 => 109 case 9 => 51 case 10 => 209 case 11 => 143 case 12 => 12 case 13 => 82 case 14 => 176 case _ => 238
  }
  function Row11(y: bv8): bv8 {
    match y
    case 0 => 50 case 1 => 108 case 2 => 142 case 3 => 208 case 4 => 83 case 5 => 13 case 6 => 239 case 7 => 177
    case 8 => 240 case 9 => 174 case 10 => 76 case 11 => 18 case 12 => 145 case 13 => 207 case 14 => 45 case _ => 115
  }
  function Row12(y: bv8): bv8 {
    match y
    case 0 => 202 case 1 => 148 case 2 => 118 case 3 => 40 case 4 => 171 case 5 => 245 case 6 => 23 case 7 => 73
    case 8 => 8 case 9 => 86 case 10 => 180 case 11 => 234 case 12 => 105 case 13 => 55 case 14 => 213 case _ => 139
  }
  function Row13(y: bv8): bv8 {
    match y
    case 0 => 87 case 1 => 9 case 2 => 235 case 3 => 181 case 4 => 54 case 5 => 104 case 6 => 138 case 7 => 212
    case 8 => 149 case 9 => 203 case 10 => 41 case 11 => 119 case 12 => 244 case 13 => 170 case 14 => 72 case _ => 22
  }
  function Row14(y: bv8): bv8 {
    match y
    case 0 => 233 case 1 => 183 case 2 => 85 case 3 => 11 case 4 => 136 case 5 => 214 case 6 => 52 case 7 => 106
    case 8 => 43 case 9 => 117 case 10 => 151 case 11 => 201 case 12 => 74 case 13 => 20 case 14 => 246 case _ => 168
  }
  function Row15(y: bv8): bv8 {
    match y
    case 0 => 116 case 1 => 42 case 2 => 200 case 3 => 150 case 4 => 21 case 5 => 75 case 6 => 169 case 7 => 247
    case 8 => 182 case 9 => 232 case 10 => 10 case 11 => 84 case 12 => 215 case 13 => 137 case 14 => 107 case _ => 53
  }

  /** Eight shifts of the register without data. */
  function Eight(c: bv8): bv8 {
    Bit8(Bit8(Bit8(Bit8(Bit8(Bit8(Bit8(Bit8(c, 0), 0), 0), 0), 0), 0), 0), 0)
  }


  /** Every table entry is the register after eight shifts without data. */
  lemma TableIsEight(x: bv8)
    ensures Table(x) == Eight(x)
  {
  }

  /** Feeding a data bit is feeding it into the register and shifting without data. */
  lemma Bit8Xor(crc: bv8, inbyte: bv8)
    ensures Bit8(crc, inbyte) ^ (inbyte >> 1) == Bit8(crc ^ inbyte, 0)
  {
  }

  predicate Fits(b: bv8, n: nat)
    decreases n
  {
    if n == 0 then b == 0 else Fits(b >> 1, n - 1)
  }

  lemma {:induction false} ShiftXor(crc: bv8, b: bv8, n: nat)
    requires Fits(b, n)
    ensures Shift8(crc, b, n) == Shift8(crc ^ b, 0, n)
    decreases n
  {
    if n > 0 {
      Bit8Xor(crc, b);
      ShiftXor(Bit8(crc, b), b >> 1, n - 1);
    }
  }

  lemma ByteFits(b: bv8)
    ensures Fits(b, 8)
  {
    assert Fits(b >> 8, 0);
    assert Fits(b >> 6, 2);
    assert Fits(b >> 4, 4);
    assert Fits(b >> 2, 6);
  }

  lemma ShiftEight(c: bv8)
    ensures Shift8(c, 0, 8) == Eight(c)
  {
    var c2 := Bit8(Bit8(c, 0), 0);
    var c4 := Bit8(Bit8(c2, 0), 0);
    assert Shift8(c, 0, 8) == Shift8(c2, 0, 6);
    assert Shift8(c2, 0, 6) == Shift8(c4, 0, 4);
  }

  /** One byte of the bit-serial CRC is one table look-up. */
  lemma ByteIsLookup(crc: bv8, b: bv8)
    ensures Shift8(crc, b, 8) == Table(crc ^ b)
  {
    ByteFits(b);
    ShiftXor(crc, b, 8);
    ShiftEight(crc ^ b);
    TableIsEight(crc ^ b);
  }

  function TableStep8(crc: bv8, b: bv8): bv8 {
    Table(crc ^ b)
  }

  lemma TableSteps()
    ensures forall crc, b :: SerialStep8(crc, b) == TableStep8(crc, b)
  {
    forall crc, b
      ensures SerialStep8(crc, b) == TableStep8(crc, b)
    {
      ByteIsLookup(crc, b);
    }
  }

  /** crc8 with the table computes the bit-serial CRC. */
  method Crc8ByTable(m: bytes) returns (crc: bv8)
    ensures crc == Crc8(m)
  {
    crc := 0;
    for n := 0 to |m|
      invariant crc == Fold(TableStep8, 0, m[..n])
    {
      FoldAppend(TableStep8, 0, m[..n], m[n]);
      assert m[..n + 1] == m[..n] + [m[n]];
      crc := Table(crc ^ m[n]);
    }
    assert m[..|m|] == m;
    TableSteps();
    FoldSame(SerialStep8, TableStep8, 0, m);
  }

  /** A message followed by its own CRC has CRC 0: the check devices make on their ROM codes. */
  lemma ResidueIsZero(m: bytes)
    ensures Crc8(m + [Crc8(m)]) == 0
  {
    var c := Crc8(m);
    FoldAppend(SerialStep8, 0, m, c);
    ByteIsLookup(c, c);
    assert c ^ c == 0;
  }

  lemma ShiftBackBit(c: bv8, d: bv8)
    requires Bit8(c, 0) == Bit8(d, 0)
    ensures c == d
  {
  }

  lemma {:induction false} ShiftBack(c: bv8, d: bv8, n: nat)
    requires Shift8(c, 0, n) == Shift8(d, 0, n)
    ensures c == d
    decreases n
  {
    if n > 0 {
      assert (0 as bv8) >> 1 == 0;
      ShiftBack(Bit8(c, 0), Bit8(d, 0), n - 1);
      ShiftBackBit(c, d);
    }
  }

  lemma SerialStepInjective(crc: bv8, b: bv8, crc': bv8, b': bv8)
    requires SerialStep8(crc, b) == SerialStep8(crc', b')
    ensures crc ^ b == crc' ^ b'
  {
    ByteFits(b);
    ByteFits(b');
    ShiftXor(crc, b, 8);
    ShiftXor(crc', b', 8);
    ShiftBack(crc ^ b, crc' ^ b', 8);
  }

  /** CRC-8 detects every change confined to one byte, in messages of any length. */
  lemma Crc8DetectsByte(m: bytes, k: nat, b: bv8)
    requires k < |m| && m[k] != b
    ensures Crc8(m[k := b]) != Crc8(m)
  {
    forall r, s, b | SerialStep8(r, b) == SerialStep8(s, b)
      ensures r == s
    {
      SerialStepInjective(r, b, s, b);
      assert r == (r ^ b) ^ b && s == (s ^ b) ^ b;
    }
    forall r, b, c | SerialStep8(r, b) == SerialStep8(r, c)
      ensures b == c
    {
      SerialStepInjective(r, b, r, c);
      assert b == (r ^ b) ^ r && c == (r ^ c) ^ r;
    }
    FoldDetects(SerialStep8, 0, m, k, b);
  }

  // ----- CRC-16 -----

  function Iterate<S>(f: S -> S, x: S, n: nat): S {
    if n == 0 then x else Iterate(f, f(x), n - 1)
  }

  /** A step that is linear where its argument is even may be iterated on both parts separately. */
  lemma {:induction false} IterateXor<S(!new)>(step: S -> S, half: S -> S, even: S -> bool, xor: (S, S) -> S,
                                               x: S, y: S, n: nat)
    requires forall a, b :: even(b) ==> step(xor(a, b)) == xor(step(a), half(b))
    requires forall k :: 0 <= k < n ==> even(Iterate(half, y, k))
    ensures Iterate(step, xor(x, y), n) == xor(Iterate(step, x, n), Iterate(half, y, n))
  {
    if n > 0 {
      assert Iterate(half, y, 0) == y;
      forall k | 0 <= k < n - 1
        ensures even(Iterate(half, half(y), k))
      {
        assert Iterate(half, y, k + 1) == Iterate(half, half(y), k);
      }
      IterateXor(step, half, even, xor, step(x), half(y), n - 1);
    }
  }

  function Half(y: bv16): bv16 {
    y >> 1
  }

  predicate Even(y: bv16) {
    y & 1 == 0
  }

  function Xor(x: bv16, y: bv16): bv16 {
    x ^ y
  }

  /** One shift of the reflected polynomial 0xA001. */
  function Bit16(crc: bv16): bv16 {
    if Even(crc) then Half(crc) else Xor(Half(crc), 0xA001)
  }

  function SerialStep16(crc: bv16, b: bv8): bv16 {
    Iterate(Bit16, crc ^ (b as bv16), 8)
  }

  /** The bit-serial CRC-16 of a message, from a given register. */
  function Crc16(init: bv16, m: bytes): bv16 {
    Fold(SerialStep16, init, m)
  }

  /** The firmware check: register all ones, then bit by bit. */
  method FirmwareCrc(m: bytes) returns (crc: bv16)
    ensures crc == Crc16(0xFFFF, m)
  {
    hide SerialStep16;
    crc := 0xFFFF;
    for n := 0 to |m|
      invariant crc == Fold(SerialStep16, 0xFFFF, m[..n])
    {
      FoldAppend(SerialStep16, 0xFFFF, m[..n], m[n]);
      assert m[..n + 1] == m[..n] + [m[n]];
      crc := FirmwareByte(crc, m[n]);
    }
    assert m[..|m|] == m;
  }

  method FirmwareByte(start: bv16, input: bv8) returns (crc: bv16)
    ensures crc == SerialStep16(start, input)
  {
    crc := start ^ (input as bv16);
    ghost var fed := crc;
    for j := 0 to 8
      invariant Iterate(Bit16, crc, 8 - j) == Iterate(Bit16, fed, 8)
    {
      if crc & 1 != 0 {
        crc := (crc >> 1) ^ 0xA001;
      } else {
        crc := crc >> 1;
      }
    }
  }

  /** The sixteen entries of oddparity that are 1. */
  predicate OddParity(n: bv16) {
    n == 1 || n == 2 || n == 4 || n == 7 || n == 8 || n == 11 || n == 13 || n == 14
  }

  /** The parity of the data byte, mixed into the high byte of the register. */
  function ParityIn(high: bv16, cdata: bv16): bv16 {
    if OddParity(cdata & 0x0F) != OddParity(cdata >> 4) then Xor(high, 0xC001) else high
  }

  /** Two shifted copies of the data byte. */
  function CopyIn(mixed: bv16, cdata: bv16): bv16 {
    Xor(Xor(mixed, cdata << 6), (cdata << 6) << 1)
  }

  /** What the trick makes of a data byte and an empty register. */
  function ParityTrick(cdata: bv16): bv16 {
    CopyIn(ParityIn(0, cdata), cdata)
  }

  function Eight16(c: bv16): bv16 {
    Bit16(Bit16(Bit16(Bit16(Bit16(Bit16(Bit16(Bit16(c))))))))
  }

  lemma LowByteTrick(x: bv16)
    requires x < 256
    ensures Eight16(x) == ParityTrick(x)
  {
  }

  lemma LowByte(x: bv16)
    requires x < 256
    ensures Iterate(Bit16, x, 8) == ParityTrick(x)
  {
    var c2 := Bit16(Bit16(x));
    var c4 := Bit16(Bit16(c2));
    LowByteTrick(x);
    assert Iterate(Bit16, x, 8) == Iterate(Bit16, c2, 6);
    assert Iterate(Bit16, c2, 6) == Iterate(Bit16, c4, 4);
  }

  lemma HalfOfXor(x: bv16, y: bv16)
    ensures Half(Xor(x, y)) == Xor(Half(x), Half(y))
  {
  }

  lemma EvenOfXor(x: bv16, y: bv16)
    requires Even(y)
    ensures Even(Xor(x, y)) == Even(x)
  {
  }

  lemma XorSwap(a: bv16, b: bv16, c: bv16)
    ensures Xor(Xor(a, b), c) == Xor(Xor(a, c), b)
  {
    XorBits(a, b, c);
  }

  lemma XorBits(a: bv16, b: bv16, c: bv16)
    ensures (a ^ b) ^ c == (a ^ c) ^ b
  {
  }

  lemma XorCommutes(a: bv16, b: bv16)
    ensures Xor(a, b) == Xor(b, a)
  {
  }

  lemma XorZero(a: bv16)
    ensures Xor(0, a) == a
  {
  }

  lemma EvenStep(x: bv16, y: bv16)
    requires Even(y)
    ensures Bit16(Xor(x, y)) == Xor(Bit16(x), Half(y))
  {
    hide Xor, Half, Even;
    HalfOfXor(x, y);
    EvenOfXor(x, y);
    XorSwap(Half(x), Half(y), 0xA001);
  }

  lemma HighByteStaysEven(y: bv16, k: nat)
    requires y & 0xFF == 0 && k < 8
    ensures Even(Iterate(Half, y, k))
  {
    assert k == 0 || k == 1 || k == 2 || k == 3 || k == 4 || k == 5 || k == 6 || k == 7;
  }

  lemma HighByteMovesDown(y: bv16)
    ensures Iterate(Half, y, 8) == y >> 8
  {
  }

  /** The high byte of the register takes no part in eight shifts but to move down. */
  lemma HighByte(x: bv16, y: bv16)
    requires y & 0xFF == 0
    ensures Iterate(Bit16, Xor(x, y), 8) == Xor(Iterate(Bit16, x, 8), y >> 8)
  {
    forall a, b | Even(b)
      ensures Bit16(Xor(a, b)) == Xor(Bit16(a), Half(b))
    {
      EvenStep(a, b);
    }
    forall k | 0 <= k < 8
      ensures Even(Iterate(Half, y, k))
    {
      HighByteStaysEven(y, k);
    }
    IterateXor(Bit16, Half, Even, Xor, x, y, 8);
    HighByteMovesDown(y);
  }

  lemma Halves(x: bv16)
    ensures Xor(x & 0xFF, x & 0xFF00) == x && (x & 0xFF00) >> 8 == x >> 8
    ensures (x & 0xFF) < 256 && (x & 0xFF00) & 0xFF == 0
  {
  }

  lemma EightShifts(x: bv16)
    ensures Iterate(Bit16, x, 8) == Xor(ParityTrick(x & 0xFF), x >> 8)
  {
    Halves(x);
    HighByte(x & 0xFF, x & 0xFF00);
    LowByte(x & 0xFF);
  }

  /** One byte of crc16, in the order of its assignments: the parity goes into the high byte, then two
      shifted copies of the data byte. */
  function ParityStep16(crc: bv16, b: bv8): bv16 {
    var cdata := ((b as bv16) ^ crc) & 0xFF;
    CopyIn(ParityIn(crc >> 8, cdata), cdata)
  }

  lemma FeedLow(crc: bv16, b: bv8)
    ensures (crc ^ (b as bv16)) >> 8 == crc >> 8 && (crc ^ (b as bv16)) & 0xFF == ((b as bv16) ^ crc) & 0xFF
  {
  }

  lemma ParityOfHigh(high: bv16, cdata: bv16)
    ensures ParityIn(high, cdata) == Xor(ParityIn(0, cdata), high)
  {
    hide Xor;
    XorZero(high);
    XorZero(0xC001);
    XorCommutes(high, 0xC001);
  }

  lemma CopyOfHigh(mixed: bv16, high: bv16, cdata: bv16)
    ensures CopyIn(Xor(mixed, high), cdata) == Xor(CopyIn(mixed, cdata), high)
  {
    hide Xor;
    XorSwap(mixed, high, cdata << 6);
    XorSwap(Xor(mixed, cdata << 6), high, (cdata << 6) << 1);
  }

  lemma ParityStepValue(crc: bv16, b: bv8)
    ensures ParityStep16(crc, b) == Xor(ParityTrick(((b as bv16) ^ crc) & 0xFF), crc >> 8)
  {
    hide ParityIn, CopyIn, Xor;
    var high, cdata := crc >> 8, ((b as bv16) ^ crc) & 0xFF;
    ParityOfHigh(high, cdata);
    CopyOfHigh(ParityIn(0, cdata), high, cdata);
  }

  /** The parity trick does in one step what eight shifts of the firmware loop do. */
  lemma ByteByParity(crc: bv16, b: bv8)
    ensures SerialStep16(crc, b) == ParityStep16(crc, b)
  {
    hide ParityStep16, ParityTrick, Bit16;
    FeedLow(crc, b);
    EightShifts(crc ^ (b as bv16));
    ParityStepValue(crc, b);
  }

  method ParityByte(start: bv16, input: bv8) returns (crc: bv16)
    ensures crc == ParityStep16(start, input)
  {
    hide ParityIn, CopyIn;
    crc := start;
    var cdata := input as bv16;
    cdata := (cdata ^ crc) & 0xFF;
    crc := crc >> 8;
    crc := MixParity(crc, cdata);
    crc := MixCopies(crc, cdata);
  }

  method MixParity(high: bv16, cdata: bv16) returns (crc: bv16)
    ensures crc == ParityIn(high, cdata)
  {
    hide Xor;
    crc := high;
    if OddParity(cdata & 0x0F) != OddParity(cdata >> 4) {
      crc := Xor(crc, 0xC001);
    }
  }

  method MixCopies(mixed: bv16, low: bv16) returns (crc: bv16)
    ensures crc == CopyIn(mixed, low)
  {
    hide Xor;
    crc := mixed;
    var cdata := low << 6;
    crc := Xor(crc, cdata);
    cdata := cdata << 1;
    crc := Xor(crc, cdata);
  }

  /** OneWire::crc16. */
  method Crc16ByParity(m: bytes, init: bv16) returns (crc: bv16)
    ensures crc == Crc16(init, m)
  {
    hide ParityStep16, SerialStep16;
    crc := init;
    for i := 0 to |m|
      invariant crc == Fold(ParityStep16, init, m[..i])
    {
      FoldAppend(ParityStep16, init, m[..i], m[i]);
      assert m[..i + 1] == m[..i] + [m[i]];
      crc := ParityByte(crc, m[i]);
    }
    assert m[..|m|] == m;
    ParitySteps();
    FoldSame(SerialStep16, ParityStep16, init, m);
  }

  lemma ParitySteps()
    ensures forall crc, b :: SerialStep16(crc, b) == ParityStep16(crc, b)
  {
    hide SerialStep16, ParityStep16;
    forall crc, b
      ensures SerialStep16(crc, b) == ParityStep16(crc, b)
    {
      ByteByParity(crc, b);
    }
  }

  /** The two libraries compute the same CRC-16 for messages of any length. */
  lemma SameCrc16(m: bytes)
    ensures Fold(ParityStep16, 0xFFFF, m) == Crc16(0xFFFF, m)
  {
    hide SerialStep16, ParityStep16;
    ParitySteps();
    FoldSame(SerialStep16, ParityStep16, 0xFFFF, m);
  }

  function LowHalf(x: bv16): bv8 {
    (x & 0xFF) as bv8
  }

  function HighHalf(x: bv16): bv8 {
    (x >> 8) as bv8
  }

  lemma HalfByBits(x: bv16, b: bv8)
    ensures (x & 0xFF) == (b as bv16) <==> b == LowHalf(x)
    ensures (x >> 8) == (b as bv16) <==> b == HighHalf(x)
  {
  }

  /** OneWire::check_crc16: the CRC arrives inverted, low byte first. */
  method CheckCrc16(m: bytes, invertedCrc: bytes, init: bv16) returns (ok: bool)
    requires |invertedCrc| >= 2
    ensures ok <==> invertedCrc[0] == LowHalf(!Crc16(init, m)) && invertedCrc[1] == HighHalf(!Crc16(init, m))
  {
    hide Crc16, LowHalf, HighHalf;
    var crc := Crc16ByParity(m, init);
    crc := !crc;
    HalfByBits(crc, invertedCrc[0]);
    HalfByBits(crc, invertedCrc[1]);
    ok := (crc & 0xFF) == (invertedCrc[0] as bv16) && (crc >> 8) == (invertedCrc[1] as bv16);
  }

  /** A message that passes the check leaves one and the same residue when the two check bytes are
      run through the CRC as well, whatever the message and the initial register. */
  lemma InvertedResidue(m: bytes, init: bv16)
    ensures var c := !Crc16(init, m);
            Crc16(init, m + [LowHalf(c)] + [HighHalf(c)]) == 0xB001
  {
    var r := Crc16(init, m);
    var lo, hi := LowHalf(!r), HighHalf(!r);
    hide SerialStep16, ParityStep16;
    FoldAppend(SerialStep16, init, m, lo);
    FoldAppend(SerialStep16, init, m + [lo], hi);
    ByteByParity(r, lo);
    ByteByParity(ParityStep16(r, lo), hi);
    ResidueOfRegister(r);
  }

  lemma ResidueOfRegister(r: bv16)
    ensures ParityStep16(ParityStep16(r, LowHalf(!r)), HighHalf(!r)) == 0xB001
  {
    hide ParityStep16;
    ResidueFirstByte(r);
    ResidueSecondByte(r);
  }

  lemma ResidueFirstByte(r: bv16)
    ensures ParityStep16(r, LowHalf(!r)) == Xor(0x4040, r >> 8)
  {
    ParityStepValue(r, LowHalf(!r));
    assert ((LowHalf(!r) as bv16) ^ r) & 0xFF == 0xFF;
    assert ParityTrick(0xFF) == 0x4040;
  }

  lemma ResidueSecondByte(r: bv16)
    ensures ParityStep16(Xor(0x4040, r >> 8), HighHalf(!r)) == 0xB001
  {
    hide ParityTrick, ParityStep16;
    var r1 := Xor(0x4040, r >> 8);
    ParityStepValue(r1, HighHalf(!r));
    SecondByteBits(r);
    TrickOfBF();
  }

  lemma SecondByteBits(r: bv16)
    ensures ((HighHalf(!r) as bv16) ^ Xor(0x4040, r >> 8)) & 0xFF == 0xBF && Xor(0x4040, r >> 8) >> 8 == 0x40
  {
  }

  lemma TrickOfBF()
    ensures ParityTrick(0xBF) == 0xB041
  {
  }
}
