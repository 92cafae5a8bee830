/**
 The 1-Wire search of the OneWire library (Maxim Application Note 187).  The master sees the
 64-bit ROM codes on the bus only through a wired-AND line, one bit at a time, and keeps nothing
 between calls but the last code found and the position of its deepest unexplored fork.

 A ROM code is its 64 bits in the order in which they travel: bit 0 of byte 0 first.
 */
module RomOrder {

  type Rom = s: seq<bool> | |s| == 64 witness seq(64, i => false)

  ghost predicate Agree(a: Rom, b: Rom, k: nat)
    requires k <= 64
  {
    forall i :: 0 <= i < k ==> a[i] == b[i]
  }

  /** a and b agree on the bits before j, where a has a 0 and b a 1. */
  ghost predicate LessAt(a: Rom, b: Rom, j: nat) {
    j < 64 && Agree(a, b, j) && !a[j] && b[j]
  }

  /** The order of the enumeration: lexicographic, first bit first, 0 before 1. */
  ghost predicate Less(a: Rom, b: Rom) {
    exists j: nat :: LessAt(a, b, j)
  }

  ghost predicate Ascending(s: seq<Rom>) {
    forall i, j :: 0 <= i < j < |s| ==> Less(s[i], s[j])
  }

  /** The first position at which two different codes differ. */
  lemma FirstDifference(a: Rom, b: Rom) returns (j: nat)
    requires a != b
    ensures j < 64 && Agree(a, b, j) && a[j] != b[j]
  {
    j := 0;
    while j < 64 && a[j] == b[j]
      invariant j <= 64 && Agree(a, b, j)
    {
      j := j + 1;
    }
    assert j == 64 ==> a == b;
  }

  lemma LessTransitive(a: Rom, b: Rom, c: Rom)
    requires Less(a, b) && Less(b, c)
    ensures Less(a, c)
  {
    var i: nat :| LessAt(a, b, i);
    var j: nat :| LessAt(b, c, j);
    assert LessAt(a, c, if i < j then i else j);
  }

  lemma LessIrreflexive(a: Rom, b: Rom)
    requires Less(a, b)
    ensures a != b && !Less(b, a)
  {
    var i: nat :| LessAt(a, b, i);
    forall j: nat
      ensures !LessAt(b, a, j)
    {
    }
  }
}

/** What one pass over the trie of codes does, independently of how the master stores its state. */
module SearchSpec {
  import opened RomOrder

  /** Some device leaves the path of r exactly at bit i. */
  ghost predicate Branch(devices: set<Rom>, r: Rom, i: nat)
    requires i < 64
  {
    exists d :: d in devices && Agree(d, r, i) && d[i] != r[i]
  }

  ghost predicate ZeroBranch(devices: set<Rom>, r: Rom, i: nat)
    requires i < 64
  {
    !r[i] && Branch(devices, r, i)
  }

  /** The number (from 1) of the last of the first k bits at which r took 0 at a fork; 0 if none. */
  ghost function LastZero(devices: set<Rom>, r: Rom, k: nat): (z: nat)
    requires k <= 64
    ensures z <= k
  {
    if k == 0 then 0
    else if ZeroBranch(devices, r, k - 1) then k
    else LastZero(devices, r, k - 1)
  }

  lemma {:induction false} LastZeroIsLast(devices: set<Rom>, r: Rom, k: nat)
    requires k <= 64
    ensures var z := LastZero(devices, r, k);
            && (z > 0 ==> ZeroBranch(devices, r, z - 1))
            && forall i: nat :: z <= i < k ==> !ZeroBranch(devices, r, i)
  {
    if k > 0 {
      LastZeroIsLast(devices, r, k - 1);
    }
  }

  /** The direction taken at a fork at bit i, given the previous code and its last discrepancy. */
  function Choice(prev: Rom, last: nat, i: nat): bool
    requires i < 64
  {
    if i + 1 < last then prev[i] else i + 1 == last
  }

  /** t is the device reached by taking the choice at every fork. */
  ghost predicate Follows(devices: set<Rom>, prev: Rom, last: nat, t: Rom) {
    t in devices && forall i: nat :: i < 64 && Branch(devices, t, i) ==> t[i] == Choice(prev, last, i)
  }

  /** At most one device is reached, so Follows determines the result of a pass. */
  lemma FollowsUnique(devices: set<Rom>, prev: Rom, last: nat, t: Rom, u: Rom)
    requires Follows(devices, prev, last, t) && Follows(devices, prev, last, u)
    ensures t == u
  {
    if t != u {
      var j := FirstDifference(t, u);
      assert Agree(t, u, j) && Agree(u, t, j);
      assert Branch(devices, t, j) && Branch(devices, u, j);
    }
  }

  /** A pass without history finds the least code on the bus. */
  lemma FreshFindsLeast(devices: set<Rom>, prev: Rom, t: Rom, d: Rom)
    requires Follows(devices, prev, 0, t) && d in devices && d != t
    ensures Less(t, d)
  {
    var j := FirstDifference(t, d);
    assert Branch(devices, t, j);
    assert LessAt(t, d, j);
  }

  lemma ForkBelow(devices: set<Rom>, prev: Rom, d: Rom, j: nat)
    requires d in devices && LessAt(prev, d, j)
    ensures ZeroBranch(devices, prev, j) && j < LastZero(devices, prev, 64)
  {
    assert Agree(d, prev, j);
    LastZeroIsLast(devices, prev, 64);
    assert ZeroBranch(devices, prev, j);
  }

  /** A pass with history moves to a greater code ... */
  lemma NextIsGreater(devices: set<Rom>, prev: Rom, t: Rom)
    requires prev in devices && LastZero(devices, prev, 64) > 0
    requires Follows(devices, prev, LastZero(devices, prev, 64), t)
    ensures LessAt(prev, t, LastZero(devices, prev, 64) - 1)
  {
    var z := LastZero(devices, prev, 64);
    LastZeroIsLast(devices, prev, 64);
    hide LastZero;
    FollowsPrevious(devices, prev, t, z);
    TakesTheOne(devices, prev, t, z);
  }

  /** Before the last discrepancy the pass takes the path of the previous code. */
  lemma FollowsPrevious(devices: set<Rom>, prev: Rom, t: Rom, z: nat)
    requires prev in devices && 0 < z <= 64 && Follows(devices, prev, z, t)
    ensures Agree(t, prev, z - 1)
  {
    forall i: nat | i < z - 1 && Agree(t, prev, i)
      ensures t[i] == prev[i]
    {
      if t[i] != prev[i] {
        assert Agree(prev, t, i);
        assert Branch(devices, t, i);
      }
    }
    AgreeByInduction(t, prev, z - 1);
  }

  /** And there it leaves it, for the 1. */
  lemma TakesTheOne(devices: set<Rom>, prev: Rom, t: Rom, z: nat)
    requires 0 < z <= 64 && ZeroBranch(devices, prev, z - 1)
    requires Follows(devices, prev, z, t) && Agree(t, prev, z - 1)
    ensures t[z - 1]
  {
    var d :| d in devices && Agree(d, prev, z - 1) && d[z - 1] != prev[z - 1];
    assert Agree(d, t, z - 1);
    assert t[z - 1] == prev[z - 1] ==> Branch(devices, t, z - 1);
  }

  lemma AgreeByInduction(a: Rom, b: Rom, k: nat)
    requires k <= 64
    requires forall i: nat :: i < k && Agree(a, b, i) ==> a[i] == b[i]
    ensures Agree(a, b, k)
  {
    if a != b {
      var j := FirstDifference(a, b);
    }
  }

  /** ... and skips none: every other greater code is beyond the one found. */
  lemma NextIsImmediate(devices: set<Rom>, prev: Rom, t: Rom, d: Rom)
    requires prev in devices && LastZero(devices, prev, 64) > 0
    requires Follows(devices, prev, LastZero(devices, prev, 64), t)
    requires d in devices && Less(prev, d) && d != t
    ensures Less(t, d)
  {
    var z := LastZero(devices, prev, 64);
    NextIsGreater(devices, prev, t);
    var j: nat :| LessAt(prev, d, j);
    ForkBelow(devices, prev, d, j);
    hide LastZero, Branch;
    var m := FirstDifference(t, d);
    ForkIsZero(devices, prev, z, t, d, j, m);
    assert LessAt(t, d, m);
  }

  /** prev and d part at j, before or at the bit z - 1 where t leaves prev: t and d part where t has a 0. */
  lemma ForkIsZero(devices: set<Rom>, prev: Rom, z: nat, t: Rom, d: Rom, j: nat, m: nat)
    requires 0 < z <= 64 && Follows(devices, prev, z, t) && LessAt(prev, t, z - 1)
    requires d in devices && LessAt(prev, d, j) && j < z
    requires m < 64 && Agree(t, d, m) && t[m] != d[m]
    ensures !t[m]
  {
    assert Agree(d, t, m);
    assert Branch(devices, t, m);
    if m < z - 1 { assert prev[m] == t[m] && m == j; }
  }

  /** Once the last discrepancy is 0 nothing is left to find. */
  lemma LastIsGreatest(devices: set<Rom>, prev: Rom, d: Rom)
    requires LastZero(devices, prev, 64) == 0 && d in devices
    ensures !Less(prev, d)
  {
    forall j: nat
      ensures !LessAt(prev, d, j)
    {
      if LessAt(prev, d, j) {
        ForkBelow(devices, prev, d, j);
      }
    }
  }

  predicate ZeroFamily(r: Rom) {
    forall i :: 0 <= i < 8 ==> !r[i]
  }

  /** Codes with a zero family byte come first, so one of them hides all others. */
  lemma ZeroFamilyFirst(devices: set<Rom>, prev: Rom, t: Rom, d: Rom)
    requires Follows(devices, prev, 0, t) && d in devices && ZeroFamily(d)
    ensures ZeroFamily(t)
  {
    if t != d {
      FreshFindsLeast(devices, prev, t, d);
      var j: nat :| LessAt(t, d, j);
      assert forall i :: 0 <= i < 8 ==> t[i] == d[i];
    }
  }

  /** LastZero reads no more of the code than the bits it is asked about. */
  lemma {:induction false} LastZeroPrefix(devices: set<Rom>, r: Rom, s: Rom, k: nat)
    requires k <= 64 && Agree(r, s, k)
    ensures LastZero(devices, r, k) == LastZero(devices, s, k)
  {
    if k > 0 {
      BranchPrefix(devices, r, s, k - 1);
      LastZeroPrefix(devices, r, s, k - 1);
    }
  }

  lemma BranchPrefix(devices: set<Rom>, r: Rom, s: Rom, i: nat)
    requires i < 64 && Agree(r, s, i + 1)
    ensures Branch(devices, r, i) == Branch(devices, s, i)
  {
    forall d: Rom
      ensures Agree(d, r, i) && d[i] != r[i] <==> Agree(d, s, i) && d[i] != s[i]
    {
    }
  }

  /** What the wired-AND line tells: every active device has bit i equal to v. */
  predicate AllSend(active: set<Rom>, i: nat, v: bool)
    requires i < 64
  {
    forall d :: d in active ==> d[i] == v
  }

  /** The devices still listening after i bits of code have been written. */
  ghost function Listening(devices: set<Rom>, code: Rom, i: nat): set<Rom>
    requires i <= 64
  {
    set d | d in devices && Agree(d, code, i)
  }

  /** The last zero taken at a fork within the family byte. */
  ghost function FamilyZero(devices: set<Rom>, code: Rom, i: nat): nat
    requires i <= 64
  {
    LastZero(devices, code, if i < 8 then i else 8)
  }

  function FamilyMark(lastZero: nat, before: nat): nat {
    if lastZero > 0 then lastZero else before
  }

  /** What holds in the middle of a pass, when the first i bits of code have been settled. */
  ghost predicate InPass(devices: set<Rom>, prev: Rom, last: nat, code: Rom, i: nat) {
    && i <= 64
    && Listening(devices, code, i) != {}
    && (forall j :: i <= j < 64 ==> code[j] == prev[j])
    && (forall j: nat :: j < i && Branch(devices, code, j) ==> code[j] == Choice(prev, last, j))
  }

  lemma PassStart(devices: set<Rom>, prev: Rom, last: nat)
    requires devices != {}
    ensures InPass(devices, prev, last, prev, 0) && Listening(devices, prev, 0) == devices
  {
    assert forall d :: d in devices ==> d in Listening(devices, prev, 0);
    var d :| d in devices;
  }

  /** Some device always answers, and the bits ahead are still those of the previous code. */
  lemma PassLine(devices: set<Rom>, prev: Rom, last: nat, code: Rom, i: nat, id: bool, cmp: bool)
    requires i < 64 && InPass(devices, prev, last, code, i)
    requires id == AllSend(Listening(devices, code, i), i, true)
    requires cmp == AllSend(Listening(devices, code, i), i, false)
    ensures !(id && cmp) && code[i] == prev[i]
  {
    var a :| a in Listening(devices, code, i);
    assert id ==> a[i];
    assert cmp ==> !a[i];
  }

  /** One bit of a pass: id and cmp are what the wired-AND line answers, dir the direction taken. */
  lemma PassStep(devices: set<Rom>, prev: Rom, last: nat, code: Rom, i: nat, id: bool, cmp: bool, dir: bool)
    requires i < 64 && InPass(devices, prev, last, code, i)
    requires id == AllSend(Listening(devices, code, i), i, true)
    requires cmp == AllSend(Listening(devices, code, i), i, false)
    requires dir == if id != cmp then id else Choice(prev, last, i)
    ensures var after: Rom := code[i := dir];
            && InPass(devices, prev, last, after, i + 1)
            && Listening(devices, after, i + 1) == set d | d in Listening(devices, code, i) && d[i] == dir
            && LastZero(devices, after, i + 1) == (if id == cmp && !dir then i + 1 else LastZero(devices, code, i))
            && FamilyZero(devices, after, i + 1)
               == if id == cmp && !dir && i + 1 < 9 then i + 1 else FamilyZero(devices, code, i)
  {
    var after: Rom := code[i := dir];
    var active := Listening(devices, code, i);
    var a :| a in active;
    assert id ==> a[i];
    assert cmp ==> !a[i];
    ListeningStep(devices, code, i, dir);
    var b :| b in active && b[i] == dir;
    assert b in Listening(devices, after, i + 1);
    assert Branch(devices, after, i) <==> id == cmp by {
      assert forall d :: d in devices && Agree(d, after, i) <==> d in active;
    }
    forall j: nat | j < i
      ensures Branch(devices, after, j) == Branch(devices, code, j)
    {
      BranchPrefix(devices, code, after, j);
    }
    LastZeroPrefix(devices, code, after, i);
    LastZeroPrefix(devices, code, after, if i < 8 then i else 8);
  }

  lemma ListeningStep(devices: set<Rom>, code: Rom, i: nat, dir: bool)
    requires i < 64
    ensures Listening(devices, code[i := dir], i + 1)
         == set d | d in Listening(devices, code, i) && d[i] == dir
  {
    var after: Rom := code[i := dir];
    forall d: Rom
      ensures Agree(d, after, i + 1) <==> Agree(d, code, i) && d[i] == dir
    {
      if Agree(d, after, i + 1) {
        assert d[i] == after[i];
        assert forall k :: 0 <= k < i ==> d[k] == after[k] == code[k];
      }
    }
  }

  /** A completed pass has followed the choices. */
  lemma PassDone(devices: set<Rom>, prev: Rom, last: nat, code: Rom)
    requires InPass(devices, prev, last, code, 64)
    ensures Follows(devices, prev, last, code)
  {
    var d :| d in Listening(devices, code, 64);
    assert d == code;
  }

  ghost predicate InFamily(family: Rom, d: Rom) {
    Agree(d, family, 8)
  }

  /** The search state a target search starts from: the family byte, then zeros. */
  predicate TargetState(family: Rom) {
    forall i :: 8 <= i < 64 ==> !family[i]
  }

  /** After target_search the next pass stays in the family if it has a member on the bus, and finds
      its least member up to the last bit: at bit 64 the stored discrepancy 64 makes it take the 1. */
  lemma TargetFindsFamily(devices: set<Rom>, family: Rom, t: Rom, d: Rom)
    requires TargetState(family) && Follows(devices, family, 64, t)
    requires d in devices && InFamily(family, d)
    ensures InFamily(family, t)
    ensures d == t || Less(t, d) || (t[63] && d == t[63 := false])
  {
    if d != t {
      var j := FirstDifference(t, d);
      assert Branch(devices, t, j);
      assert j >= 8;
      assert j < 63 ==> LessAt(t, d, j);
      assert j == 63 ==> d == t[63 := d[63]];
      assert j == 63 && d[63] ==> LessAt(t, d, j);
    }
  }

  /** m is the first member of the family in the order of the enumeration. */
  ghost predicate LeastMember(devices: set<Rom>, family: Rom, m: Rom) {
    && m in devices && InFamily(family, m)
    && forall d :: d in devices && InFamily(family, d) && d != m ==> Less(m, d)
  }

  /** On the bus: the pass finds the first member of the family exactly when there is no second device that
      differs from it in the last bit only, with a 1 there. */
  lemma TargetFindsLeastIff(devices: set<Rom>, family: Rom, t: Rom, m: Rom)
    requires TargetState(family) && Follows(devices, family, 64, t) && LeastMember(devices, family, m)
    ensures t == m <==> !(!m[63] && m[63 := true] in devices)
  {
    var twin: Rom := m[63 := true];
    TargetFindsFamily(devices, family, t, m);
    if t == m {
      if !m[63] && twin in devices {
        assert Agree(twin, t, 63);
      }
    } else {
      LessIrreflexive(m, t);
      assert t == m[63 := true];
    }
  }

  /** Where no two codes differ in the last bit only, target_search finds the first member of the family. */
  lemma TargetFindsLeast(devices: set<Rom>, family: Rom, t: Rom, d: Rom)
    requires TargetState(family) && Follows(devices, family, 64, t)
    requires d in devices && InFamily(family, d)
    requires forall a, b :: a in devices && b in devices && Agree(a, b, 63) ==> a == b
    ensures LeastMember(devices, family, t)
  {
    TargetFindsFamily(devices, family, t, d);
    forall e | e in devices && InFamily(family, e) && e != t
      ensures Less(t, e)
    {
      TargetFindsFamily(devices, family, t, e);
      assert Agree(e, t, 63) ==> e == t;
    }
  }

  /** A bus on which it passes over the first: two codes that differ in bit 64 only. */
  lemma TargetSkipsTwin(d: Rom, t: Rom)
    requires d == seq(64, i => i == 0) && t == seq(64, i => i == 0 || i == 63)
    ensures TargetState(d) && Follows({d, t}, d, 64, t) && LeastMember({d, t}, d, d) && d != t
  {
    assert LessAt(d, t, 63);
  }
}

/** The eight ROM bytes as the code keeps them, and the bits they stand for. */
module RomBytes {
  import opened ByteBits
  import opened RomOrder
  import opened SearchSpec

  predicate BitOf(bytes: seq<bv8>, i: nat)
    requires |bytes| == 8 && i < 64
  {
    Bit(bytes[i / 8], i % 8)
  }

  function Bits(bytes: seq<bv8>): Rom
    requires |bytes| == 8
  {
    seq(64, i requires 0 <= i < 64 => BitOf(bytes, i))
  }

  lemma ZeroFirstByte(bytes: seq<bv8>)
    requires |bytes| == 8
    ensures ZeroFamily(Bits(bytes)) <==> bytes[0] == 0
  {
    hide Bit;
    ZeroByte(bytes[0]);
    assert forall k: nat :: k < 8 ==> Bits(bytes)[k] == Bit(bytes[0], k);
  }

  /** Byte number and mask after i steps of the search loop: the mask moves left, and when it has left
      the byte the next byte starts. */
  function CursorAt(i: nat): (nat, bv8) {
    if i == 0 then (0, 1)
    else
      var (byteNumber, mask) := CursorAt(i - 1);
      if mask << 1 == 0 then (byteNumber + 1, 1) else (byteNumber, mask << 1)
  }

  lemma {:induction false} CursorValue(i: nat)
    ensures CursorAt(i) == (i / 8, Mask(i % 8))
  {
    MaskValues();
    if i > 0 {
      CursorValue(i - 1);
      var k := (i - 1) % 8;
      assert k < 7 ==> i / 8 == (i - 1) / 8 && i % 8 == k + 1;
      assert k == 7 ==> i / 8 == (i - 1) / 8 + 1 && i % 8 == 0;
      assert Mask(k) << 1 == Mask(k + 1);
      if k < 7 {
        MaskIsOneBit(k + 1);
      }
    }
  }

  lemma SetBitAt(bytes: seq<bv8>, n: nat, k: nat, v: bool, m: nat, l: nat)
    requires |bytes| == 8 && n < 8 && k < 8 && m < 8 && l < 8
    ensures Bit(bytes[n := Written(bytes[n], Mask(k), v)][m], l) == if m == n && l == k then v else Bit(bytes[m], l)
  {
    if m == n {
      WrittenBit(bytes[n], k, v, l);
    }
  }

  lemma SetBitOf(bytes: seq<bv8>, i: nat, v: bool, j: nat)
    requires |bytes| == 8 && i < 64 && j < 64
    ensures BitOf(bytes[i / 8 := Written(bytes[i / 8], Mask(i % 8), v)], j) == if j == i then v else BitOf(bytes, j)
  {
    SetBitAt(bytes, i / 8, i % 8, v, j / 8, j % 8);
  }

  /** Writing one bit of one byte changes exactly that bit of the code. */
  lemma SetBit(bytes: seq<bv8>, i: nat, v: bool)
    requires |bytes| == 8 && i < 64
    ensures Bits(bytes[i / 8 := Written(bytes[i / 8], Mask(i % 8), v)]) == Bits(bytes)[i := v]
  {
    var after := bytes[i / 8 := Written(bytes[i / 8], Mask(i % 8), v)];
    forall j: nat | j < 64
      ensures Bits(after)[j] == Bits(bytes)[i := v][j]
    {
      SetBitOf(bytes, i, v, j);
    }
  }
}

/** What the last byte of a code is for: it is the CRC-8 of the seven before it. */
module RomCrc {
  import opened ByteBits
  import opened RomOrder
  import opened RomBytes
  import opened SearchSpec
  import opened Crc

  /** The bytes of r end in the CRC-8 of the others, as those of every real device do. */
  ghost predicate Genuine(r: Rom) {
    exists b: seq<bv8> :: |b| == 8 && Bits(b) == r && b[7] == Crc8(b[..7])
  }

  lemma SameByte(b: bv8, c: bv8)
    requires forall k: nat :: k < 8 ==> Bit(b, k) == Bit(c, k)
    ensures b == c
  {
    MaskValues();
    assert Bit(b, 0) == Bit(c, 0) && Bit(b, 1) == Bit(c, 1) && Bit(b, 2) == Bit(c, 2) && Bit(b, 3) == Bit(c, 3);
    assert Bit(b, 4) == Bit(c, 4) && Bit(b, 5) == Bit(c, 5) && Bit(b, 6) == Bit(c, 6) && Bit(b, 7) == Bit(c, 7);
  }

  /** Bytes whose bits agree are the same. */
  lemma SameBytes(b: seq<bv8>, c: seq<bv8>, n: nat)
    requires |b| == |c| == 8 && n <= 8 && Agree(Bits(b), Bits(c), 8 * n)
    ensures b[..n] == c[..n]
  {
    hide Bit;
    forall i: nat | i < n
      ensures b[i] == c[i]
    {
      forall k: nat | k < 8
        ensures Bit(b[i], k) == Bit(c[i], k)
      {
        var j := 8 * i + k;
        assert Bits(b)[j] == Bits(c)[j];
        assert j / 8 == i && j % 8 == k;
      }
      SameByte(b[i], c[i]);
    }
  }

  /** Two genuine codes that agree in their first seven bytes are the same. */
  lemma GenuineDiffer(r: Rom, s: Rom)
    requires Genuine(r) && Genuine(s) && Agree(r, s, 56)
    ensures r == s
  {
    hide Crc8, BitOf;
    var b: seq<bv8> :| |b| == 8 && Bits(b) == r && b[7] == Crc8(b[..7]);
    var c: seq<bv8> :| |c| == 8 && Bits(c) == s && c[7] == Crc8(c[..7]);
    SameBytes(b, c, 7);
    assert b == b[..7] + [b[7]] && c == c[..7] + [c[7]];
  }

  /** So among real devices target_search always finds the first member of the family, if there is one. */
  lemma TargetFindsFirst(devices: set<Rom>, family: Rom, t: Rom, d: Rom)
    requires TargetState(family) && Follows(devices, family, 64, t)
    requires d in devices && InFamily(family, d)
    requires forall r :: r in devices ==> Genuine(r)
    ensures LeastMember(devices, family, t)
  {
    forall a, b | a in devices && b in devices && Agree(a, b, 63)
      ensures a == b
    {
      GenuineDiffer(a, b);
    }
    TargetFindsLeast(devices, family, t, d);
  }

  /** The two codes of TargetSkipsTwin are not both genuine. */
  lemma TwinsAreNotGenuine(r: Rom)
    requires Genuine(r)
    ensures !Genuine(r[63 := !r[63]])
  {
    var twin: Rom := r[63 := !r[63]];
    if Genuine(twin) {
      GenuineDiffer(r, twin);
    }
  }
}

module OneWireSearch {
  import opened ByteBits
  import opened RomOrder
  import opened SearchSpec
  import opened RomBytes

  /** The devices on the wire.  A read slot returns the AND of what the active devices send, first
      the next bit of each code and then its complement; a write slot silences those whose bit differs. */
  class Bus {
    const devices: set<Rom>
    var active: set<Rom>
    var position: nat
    var complement: bool

    constructor (devices: set<Rom>)
      ensures this.devices == devices
    {
      this.devices := devices;
      active, position, complement := {}, 0, false;
    }

    method Reset() returns (presence: bool)
      modifies this
      ensures presence == (devices != {})
      ensures active == devices
    {
      active := devices;
      presence := devices != {};
    }

    method SearchCommand()
      modifies this
      ensures active == old(active) && position == 0 && !complement
    {
      position, complement := 0, false;
    }

    method ReadBit() returns (bit: bool)
      requires position < 64
      modifies this
      ensures active == old(active) && position == old(position) && complement == !old(complement)
      ensures bit == AllSend(active, position, !old(complement))
    {
      bit := AllSend(active, position, !complement);
      complement := !complement;
    }

    method WriteBit(v: bool)
      requires position < 64
      modifies this
      ensures active == set d | d in old(active) && d[old(position)] == v
      ensures position == old(position) + 1 && !complement
    {
      active := set d | d in active && d[position] == v;
      position, complement := position + 1, false;
    }
  }

  class OneWire {
    const bus: Bus
    const rom: array<bv8>
    var lastDiscrepancy: nat
    var lastFamilyDiscrepancy: nat
    var lastDeviceFlag: bool

    ghost predicate Valid()
      reads this
    {
      rom.Length == 8 && lastDiscrepancy <= 64
    }

    ghost function Code(): Rom
      requires Valid()
      reads this, rom
    {
      Bits(rom[..])
    }

    /** Nothing found since the search was reset. */
    ghost predicate Fresh()
      reads this
    {
      lastDiscrepancy == 0 && !lastDeviceFlag
    }

    /** The last call returned the code in rom, and the two other fields describe its path. */
    ghost predicate Found()
      requires Valid()
      reads this, rom
    {
      && Code() in bus.devices
      && lastDiscrepancy == LastZero(bus.devices, Code(), 64)
      && lastDeviceFlag == (lastDiscrepancy == 0)
    }

    constructor (bus: Bus)
      ensures Valid() && Fresh() && fresh(rom) && this.bus == bus
    {
      this.bus := bus;
      rom := new bv8[8](i => 0);
      lastDiscrepancy, lastFamilyDiscrepancy, lastDeviceFlag := 0, 0, false;
    }

    method ResetSearch()
      requires Valid()
      modifies this, rom
      ensures Valid() && Fresh() && lastFamilyDiscrepancy == 0
      ensures rom[..] == seq(8, i => 0)
    {
      lastDiscrepancy, lastDeviceFlag, lastFamilyDiscrepancy := 0, false, 0;
      var i := 7;
      while true
        invariant 0 <= i < 8
        invariant forall j :: i < j < 8 ==> rom[j] == 0
        invariant Valid() && Fresh() && lastFamilyDiscrepancy == 0
        decreases i
      {
        rom[i] := 0;
        if i == 0 { break; }
        i := i - 1;
      }
    }

    method TargetSearch(familyCode: bv8)
      requires Valid()
      modifies this, rom
      ensures Valid() && !lastDeviceFlag && lastDiscrepancy == 64 && lastFamilyDiscrepancy == 0
      ensures TargetState(Code())
      ensures forall k: nat :: k < 8 ==> Code()[k] == Bit(familyCode, k)
    {
      rom[0] := familyCode;
      var i := 1;
      while i < 8
        invariant 1 <= i <= 8
        invariant rom[0] == familyCode
        invariant forall j :: 1 <= j < i ==> rom[j] == 0
      {
        rom[i] := 0;
        i := i + 1;
      }
      lastDiscrepancy, lastFamilyDiscrepancy, lastDeviceFlag := 64, 0, false;
      forall j | 1 <= j < 8
        ensures forall k: nat :: k < 8 ==> !Bit(rom[j], k)
      {
        ZeroByte(rom[j]);
      }
    }

    /** One pass.  With devices present it reaches the device that Follows singles out, and fails
        only when its family byte is zero. */
    method Search(newAddr: array<bv8>) returns (result: bool)
      requires Valid() && newAddr.Length == 8 && newAddr != rom
      modifies this, rom, newAddr, bus
      ensures Valid()
      ensures !result ==> Fresh() && lastFamilyDiscrepancy == 0
      ensures old(lastDeviceFlag) || bus.devices == {} ==> !result && rom[..] == old(rom[..])
      ensures newAddr[..] == if bus.devices == {} && !old(lastDeviceFlag) then old(newAddr[..]) else rom[..]
      ensures !old(lastDeviceFlag) && bus.devices != {} ==>
                && Follows(bus.devices, old(Code()), old(lastDiscrepancy), Code())
                && result == !ZeroFamily(Code())
      ensures result ==>
                && Found()
                && lastFamilyDiscrepancy
                   == FamilyMark(FamilyZero(bus.devices, Code(), 64), old(lastFamilyDiscrepancy))
    {
      var searchResult := false;
      if !lastDeviceFlag {
        var presence := bus.Reset();
        if !presence {
          lastDiscrepancy, lastDeviceFlag, lastFamilyDiscrepancy := 0, false, 0;
          return false;
        }
        bus.SearchCommand();
        searchResult := Pass();
      }
      result := Conclude(searchResult, newAddr);
    }

    /** The end of every call: a failed search starts over, and the code is copied out. */
    method Conclude(searchResult: bool, newAddr: array<bv8>) returns (result: bool)
      requires Valid() && newAddr.Length == 8 && newAddr != rom
      modifies this, newAddr
      ensures Valid() && rom[..] == old(rom[..]) && newAddr[..] == rom[..]
      ensures result == (searchResult && !ZeroFamily(Code()))
      ensures if result then unchanged(this) else Fresh() && lastFamilyDiscrepancy == 0
    {
      hide Bits, ZeroFamily;
      result := searchResult;
      ZeroFirstByte(rom[..]);
      if !searchResult || rom[0] == 0 {
        lastDiscrepancy, lastDeviceFlag, lastFamilyDiscrepancy := 0, false, 0;
        result := false;
      }
      for n := 0 to 8
        modifies newAddr
        invariant newAddr[..n] == rom[..n]
      {
        newAddr[n] := rom[n];
      }
    }

    /** The stored bit under the mask. */
    method ReadRomBit(romByteNumber: nat, romByteMask: bv8, ghost i: nat) returns (bit: bool)
      requires Valid() && i < 64 && (romByteNumber, romByteMask) == CursorAt(i)
      ensures bit == Code()[i]
    {
      CursorValue(i);
      assert BitOf(rom[..], i) == Code()[i];
      bit := rom[romByteNumber] & romByteMask > 0;
    }

    /** Set or clear the bit of the ROM byte under the mask. */
    method WriteRomBit(romByteNumber: nat, romByteMask: bv8, searchDirection: bool, ghost i: nat)
      requires Valid() && i < 64 && (romByteNumber, romByteMask) == CursorAt(i)
      modifies rom
      ensures Code() == old(Code())[i := searchDirection]
    {
      CursorValue(i);
      SetBit(rom[..], i, searchDirection);
      SetOrClear(romByteNumber, romByteMask, searchDirection);
    }

    method SetOrClear(romByteNumber: nat, romByteMask: bv8, searchDirection: bool)
      requires rom.Length == 8 && romByteNumber < 8
      modifies rom
      ensures rom[..] == old(rom[..])[romByteNumber := Written(old(rom[romByteNumber]), romByteMask, searchDirection)]
    {
      if searchDirection {
        rom[romByteNumber] := rom[romByteNumber] | romByteMask;
      } else {
        rom[romByteNumber] := rom[romByteNumber] & !romByteMask;
      }
    }

    /** Move the mask to the next bit, and to the next byte when it has left this one. */
    static method NextRomBit(romByteNumber: nat, romByteMask: bv8, ghost i: nat)
      returns (nextByte: nat, nextMask: bv8)
      requires i < 64 && (romByteNumber, romByteMask) == CursorAt(i)
      ensures (nextByte, nextMask) == CursorAt(i + 1) && (nextByte < 8 <==> i + 1 < 64)
    {
      CursorValue(i + 1);
      nextByte, nextMask := romByteNumber, romByteMask << 1;
      if nextMask == 0 {
        nextByte, nextMask := nextByte + 1, 1;
      }
    }

    /** The direction at a fork: before the last discrepancy as the last time, at it 1, after it 0. */
    method TakeFork(idBitNumber: nat, romByteNumber: nat, romByteMask: bv8, ghost i: nat)
      returns (searchDirection: bool)
      requires Valid() && i < 64 && (romByteNumber, romByteMask) == CursorAt(i) && idBitNumber == i + 1
      ensures searchDirection == Choice(Code(), lastDiscrepancy, i)
    {
      if idBitNumber < lastDiscrepancy {
        searchDirection := ReadRomBit(romByteNumber, romByteMask, i);
      } else {
        searchDirection := idBitNumber == lastDiscrepancy;
      }
    }

    /** The do-while loop over the 64 bits and the bookkeeping after it. */
    method Pass() returns (searchResult: bool)
      requires Valid() && !lastDeviceFlag && bus.devices != {}
      requires bus.active == bus.devices && bus.position == 0 && !bus.complement
      modifies this, rom, bus
      ensures Valid() && searchResult && Found()
      ensures Follows(bus.devices, old(Code()), old(lastDiscrepancy), Code())
      ensures lastFamilyDiscrepancy
              == FamilyMark(FamilyZero(bus.devices, Code(), 64), old(lastFamilyDiscrepancy))
    {
      hide Bits, InPass, Follows, Listening, Under;
      ghost var devices, prev, last, family := bus.devices, Code(), lastDiscrepancy, lastFamilyDiscrepancy;
      ghost var code := prev;
      PassStart(devices, prev, last);
      var idBitNumber, lastZero, romByteNumber := 1, 0, 0;
      var romByteMask: bv8 := 1;
      ghost var i: nat := 0;  // bits settled so far
      while romByteNumber < 8
        invariant idBitNumber == i + 1 && (romByteNumber, romByteMask) == CursorAt(i)
        invariant i <= 64 && (romByteNumber < 8 <==> i < 64)
        invariant Valid() && lastDiscrepancy == last && !lastDeviceFlag && Code() == code
        invariant InPass(devices, prev, last, code, i)
        invariant lastZero == LastZero(devices, code, i)
        invariant lastFamilyDiscrepancy == FamilyMark(FamilyZero(devices, code, i), family)
        invariant bus.position == i && !bus.complement && bus.active == Listening(devices, code, i)
        decreases 64 - i
      {
        var idBit := bus.ReadBit();
        var cmpIdBit := bus.ReadBit();
        PassLine(devices, prev, last, code, i, idBit, cmpIdBit);
        if idBit && cmpIdBit {
          break;
        }
        var searchDirection;
        if idBit != cmpIdBit {
          searchDirection := idBit;
        } else {
          searchDirection := TakeFork(idBitNumber, romByteNumber, romByteMask, i);
          if !searchDirection {
            lastZero := idBitNumber;
            if lastZero < 9 {
              lastFamilyDiscrepancy := lastZero;
            }
          }
        }
        PassStep(devices, prev, last, code, i, idBit, cmpIdBit, searchDirection);
        WriteRomBit(romByteNumber, romByteMask, searchDirection, i);
        bus.WriteBit(searchDirection);
        idBitNumber := idBitNumber + 1;
        romByteNumber, romByteMask := NextRomBit(romByteNumber, romByteMask, i);
        code := code[i := searchDirection];
        i := i + 1;
      }
      searchResult := false;
      if !(idBitNumber < 65) {
        PassDone(devices, prev, last, code);
        lastDiscrepancy := lastZero;
        if lastDiscrepancy == 0 {
          lastDeviceFlag := true;
        }
        searchResult := true;
      }
    }
  }

  /** found lists, in order, the devices up to but not including code. */
  ghost predicate ListedBefore(devices: set<Rom>, found: seq<Rom>, code: Rom) {
    && Ascending(found)
    && (forall f :: f in found ==> f in devices && Less(f, code))
    && (forall d :: d in devices ==> d in found || d == code || Less(code, d))
  }

  ghost predicate ListsAll(devices: set<Rom>, found: seq<Rom>) {
    Ascending(found) && forall d :: d in found <==> d in devices
  }

  lemma ListedFirst(devices: set<Rom>, prev: Rom, first: Rom)
    requires Follows(devices, prev, 0, first)
    ensures ListedBefore(devices, [], first)
  {
    forall d | d in devices && d != first
      ensures Less(first, d)
    {
      FreshFindsLeast(devices, prev, first, d);
    }
  }

  lemma ListedOne(devices: set<Rom>, found: seq<Rom>, code: Rom)
    requires ListedBefore(devices, found, code) && code in devices
    ensures code !in found && Ascending(found + [code])
    ensures forall d :: d in devices ==> d in found + [code] || Less(code, d)
  {
    forall f | f in found
      ensures f != code
    {
      LessIrreflexive(f, code);
    }
  }

  lemma ListedNext(devices: set<Rom>, found: seq<Rom>, code: Rom, next: Rom)
    requires ListedBefore(devices, found, code) && code in devices
    requires LastZero(devices, code, 64) > 0 && Follows(devices, code, LastZero(devices, code, 64), next)
    ensures ListedBefore(devices, found + [code], next)
  {
    ListedOne(devices, found, code);
    NextIsGreater(devices, code, next);
    forall f | f in found
      ensures Less(f, next)
    {
      LessTransitive(f, code, next);
    }
    forall d | d in devices && d !in found + [code] && d != next
      ensures Less(next, d)
    {
      NextIsImmediate(devices, code, next, d);
    }
  }

  lemma ListedLast(devices: set<Rom>, found: seq<Rom>, code: Rom)
    requires ListedBefore(devices, found, code) && code in devices && LastZero(devices, code, 64) == 0
    ensures ListsAll(devices, found + [code])
  {
    ListedOne(devices, found, code);
    forall d | d in devices && d !in found + [code]
      ensures false
    {
      LastIsGreatest(devices, code, d);
    }
  }

  ghost predicate HasZeroFamily(devices: set<Rom>) {
    exists d :: d in devices && ZeroFamily(d)
  }

  /** reset_search and then search until it fails: every device once, in order, and the search is
      fresh again.  A device with family byte zero makes the first search fail already. */
  method Enumerate(wire: OneWire, newAddr: array<bv8>) returns (found: seq<Rom>)
    requires wire.Valid() && newAddr.Length == 8 && newAddr != wire.rom
    modifies wire, wire.rom, wire.bus, newAddr
    ensures wire.Valid() && wire.Fresh()
    ensures if HasZeroFamily(wire.bus.devices) then found == [] else ListsAll(wire.bus.devices, found)
  {
    hide Less, Follows, LastZero, Bits, ListedBefore, Listening;
    ghost var devices := wire.bus.devices;
    found := [];
    wire.ResetSearch();
    ghost var prev := wire.Code();
    var more := wire.Search(newAddr);
    if devices != {} {
      ListedFirst(devices, prev, wire.Code());
      if d :| d in devices && ZeroFamily(d) {
        ZeroFamilyFirst(devices, prev, wire.Code(), d);
      }
    }
    while more
      invariant wire.Valid() && (!more ==> wire.Fresh())
      invariant more ==> wire.Found() && newAddr[..] == wire.rom[..] && !HasZeroFamily(devices)
      invariant more ==> ListedBefore(devices, found, wire.Code())
      invariant !more ==> if HasZeroFamily(devices) then found == [] else ListsAll(devices, found)
      decreases devices - (set f | f in found), more
    {
      ghost var code, before := wire.Code(), set f | f in found;
      ListedOne(devices, found, code);
      if wire.lastDeviceFlag {
        ListedLast(devices, found, code);
      }
      found := found + [Bits(newAddr[..])];
      assert (set f | f in found) == before + {code};
      more := wire.Search(newAddr);
      if LastZero(devices, code, 64) > 0 {
        ListedNext(devices, found[..|found| - 1], code, wire.Code());
        assert found == found[..|found| - 1] + [code];
        assert wire.Code() in devices;
      }
    }
  }
}
