/** Version 1 UUIDs: the clock-sequence storage, packing into bytes, and distinctness over
    whole runs of clock readings. */
module Uuid {
  import opened IntMath

  type Byte = x: int | 0 <= x < 0x100
  type Uint16 = x: int | 0 <= x < 0x1_0000
  type Uint64 = x: int | 0 <= x < 0x1_0000_0000_0000_0000

  type Bytes = seq<Byte>

  const TWO14 := 0x4000
  const TWO60 := 0x1000_0000_0000_0000

  // ----- packing -----------------------------------------------------------

  /** The digits of v in base m and above it, below k * m. */
  lemma SplitMod(v: nat, m: int, k: int)
    requires m >= 1 && k >= 1
    ensures k * m >= 1 && v % (k * m) == v / m % k * m + v % m
  {
    var q1, r1 := v / m, v % m;
    assert v == m * q1 + r1;
    DivNonNegative(v, m);
    var q2, r2 := q1 / k, q1 % k;
    assert q1 == k * q2 + r2;
    SplitRange(m, k, r1, r2);
    assert v == k * m * q2 + (r2 * m + r1) by {
      SplitProduct(m, k, q2, r2);
    }
    DivUnique(v, k * m, q2, r2 * m + r1);
  }

  lemma SplitRange(m: int, k: int, r1: int, r2: int)
    requires m >= 1 && k >= 1 && 0 <= r1 < m && 0 <= r2 < k
    ensures k * m >= 1 && 0 <= r2 * m + r1 < k * m
  {
    assert r2 * m <= (k - 1) * m;
    assert (k - 1) * m == k * m - m;
  }

  lemma SplitProduct(m: int, k: int, q: int, r: int)
    ensures m * (k * q + r) == k * m * q + r * m
  {
  }

  /** Big-endian bytes of the low 16 bits. */
  function Be16(v: nat): (b: Bytes)
    ensures |b| == 2
  {
    [v / 0x100 % 0x100, v % 0x100]
  }

  /** Big-endian bytes of the low 32 bits. */
  function Be32(v: nat): (b: Bytes)
    ensures |b| == 4
  {
    [v / 0x100_0000 % 0x100, v / 0x1_0000 % 0x100, v / 0x100 % 0x100, v % 0x100]
  }

  lemma Be16Value(v: nat)
    ensures var b := Be16(v); (b[0] as int) * 0x100 + b[1] == v % 0x1_0000
  {
    SplitMod(v, 0x100, 0x100);
  }

  lemma Be32Value(v: nat)
    ensures var b := Be32(v);
      (b[0] as int) * 0x100_0000 + (b[1] as int) * 0x1_0000 + (b[2] as int) * 0x100 + b[3] == v % 0x1_0000_0000
  {
    SplitMod(v, 0x100, 0x100);
    SplitMod(v, 0x1_0000, 0x100);
    SplitMod(v, 0x100_0000, 0x100);
  }

  /** (b & 0x0f) | (v << 4) on bytes. */
  function WithVersion(b: Byte, v: Byte): Byte {
    b % 16 + v % 16 * 16
  }

  /** (b & 0xbf) | 0x80 on a byte. */
  function WithVariant(b: Byte): Byte {
    b % 64 + 0x80
  }

  /** A byte's number, bit by bit. */
  function Unsigned(b: bv8): (n: int)
    ensures 0 <= n < 0x100
  {
    LowNibble(b) + (if b & 0x10 != 0 then 16 else 0) + (if b & 0x20 != 0 then 32 else 0)
    + (if b & 0x40 != 0 then 64 else 0) + (if b & 0x80 != 0 then 128 else 0)
  }

  function LowNibble(b: bv8): int {
    (if b & 0x01 != 0 then 1 else 0) + (if b & 0x02 != 0 then 2 else 0)
    + (if b & 0x04 != 0 then 4 else 0) + (if b & 0x08 != 0 then 8 else 0)
  }

  function HighNibble(b: bv8): int {
    (if b & 0x10 != 0 then 1 else 0) + (if b & 0x20 != 0 then 2 else 0)
    + (if b & 0x40 != 0 then 4 else 0) + (if b & 0x80 != 0 then 8 else 0)
  }

  /** The arithmetic above is the masking and shifting it stands for. */
  lemma MaskingAsArithmetic(b: bv8, v: bv8)
    ensures Unsigned((b & 0x0f) | (v << 4)) == WithVersion(Unsigned(b), Unsigned(v))
    ensures Unsigned((b & 0xbf) | 0x80) == WithVariant(Unsigned(b))
  {
    hide Unsigned, LowNibble;
    Nibbles(b);
    Nibbles(v);
    ShiftBits(b, v);
    MaskBits(b);
  }

  lemma Nibbles(b: bv8)
    ensures Unsigned(b) % 16 == LowNibble(b)
    ensures Unsigned(b) % 64 == LowNibble(b) + (if b & 0x10 != 0 then 16 else 0) + (if b & 0x20 != 0 then 32 else 0)
  {
    DivUnique(Unsigned(b), 16, HighNibble(b), LowNibble(b));
    DivUnique(Unsigned(b), 64, (if b & 0x40 != 0 then 1 else 0) + (if b & 0x80 != 0 then 2 else 0),
              LowNibble(b) + (if b & 0x10 != 0 then 16 else 0) + (if b & 0x20 != 0 then 32 else 0));
  }

  lemma ShiftBits(b: bv8, v: bv8)
    ensures Unsigned((b & 0x0f) | (v << 4)) == LowNibble(b) + LowNibble(v) * 16
  {
  }

  lemma MaskBits(b: bv8)
    ensures Unsigned((b & 0xbf) | 0x80) ==
            LowNibble(b) + (if b & 0x10 != 0 then 16 else 0) + (if b & 0x20 != 0 then 32 else 0) + 128
  {
  }

  /** u[6] >> 4. */
  function Version(u: Bytes): Byte
    requires |u| == 16
  {
    u[6] / 16
  }

  datatype Layout = VariantNCS | VariantRFC4122 | VariantMicrosoft | VariantFuture

  /** By the top bits of u[8]: 0, 10, 110 or 111. */
  function Variant(u: Bytes): Layout
    requires |u| == 16
  {
    if u[8] / 128 == 0 then VariantNCS
    else if u[8] / 64 % 2 == 0 then VariantRFC4122
    else if u[8] / 32 % 2 == 0 then VariantMicrosoft
    else VariantFuture
  }

  /** The bytes of a version 1 UUID (RFC 4122, section 4.1.2). */
  function Packed(time: Uint64, clockSeq: Uint16, node: Bytes): (u: Bytes)
    requires |node| == 6
    ensures |u| == 16
  {
    var high, clock := Be16(time / 0x1_0000_0000_0000), Be16(clockSeq);
    Be32(time) + Be16(time / 0x1_0000_0000) +
    [WithVersion(high[0], 1), high[1], WithVariant(clock[0]), clock[1]] + node
  }

  /** The 60-bit time, read back from the three time fields. */
  function TimeOf(u: Bytes): int
    requires |u| == 16
  {
    (u[0] as int) * 0x100_0000 + (u[1] as int) * 0x1_0000 + (u[2] as int) * 0x100 + u[3]
    + ((u[4] as int) * 0x100 + u[5]) * 0x1_0000_0000
    + ((u[6] as int) % 16 * 0x100 + u[7]) * 0x1_0000_0000_0000
  }

  /** The 14-bit clock sequence. */
  function ClockSeqOf(u: Bytes): int
    requires |u| == 16
  {
    (u[8] as int) % 64 * 0x100 + u[9]
  }

  function NodeOf(u: Bytes): Bytes
    requires |u| == 16
  {
    u[10..]
  }

  /** Everything packed can be read back, and the UUID names its version and variant. */
  lemma ReadBack(time: Uint64, clockSeq: Uint16, node: Bytes)
    requires |node| == 6
    ensures TimeOf(Packed(time, clockSeq, node)) == time % TWO60
    ensures ClockSeqOf(Packed(time, clockSeq, node)) == clockSeq % TWO14
    ensures NodeOf(Packed(time, clockSeq, node)) == node
    ensures Version(Packed(time, clockSeq, node)) == 1
    ensures Variant(Packed(time, clockSeq, node)) == VariantRFC4122
  {
    hide Be16, Be32;
    var u := Packed(time, clockSeq, node);
    var mid, high, clock := Be16(time / 0x1_0000_0000), Be16(time / 0x1_0000_0000_0000), Be16(clockSeq);
    assert u == Be32(time) + mid + [WithVersion(high[0], 1), high[1], WithVariant(clock[0]), clock[1]] + node;
    VersionByte(high[0]);
    VariantByte(clock[0]);
    Be32Value(time);
    Be16Value(time / 0x1_0000_0000);
    Be16Low12(time / 0x1_0000_0000_0000);
    Be16Low14(clockSeq);
    SplitMod(time, 0x1_0000_0000, 0x1_0000);
    SplitMod(time, 0x1_0000_0000_0000, 0x1000);
  }

  lemma VersionByte(b: Byte)
    ensures WithVersion(b, 1) % 16 == b % 16 && WithVersion(b, 1) / 16 == 1
  {
  }

  lemma VariantByte(b: Byte)
    ensures WithVariant(b) % 64 == b % 64 && WithVariant(b) / 128 == 1 && WithVariant(b) / 64 % 2 == 0
  {
  }

  lemma Be16Low12(v: nat)
    ensures var b := Be16(v); (b[0] as int) % 16 * 0x100 + b[1] == v % 0x1000
  {
    SplitMod(v, 0x100, 16);
    ModMod(v / 0x100, 16, 16);
  }

  lemma Be16Low14(v: nat)
    ensures var b := Be16(v); (b[0] as int) % 64 * 0x100 + b[1] == v % TWO14
  {
    SplitMod(v, 0x100, 64);
    ModMod(v / 0x100, 64, 4);
  }

  /** Reducing modulo a multiple first changes nothing. */
  lemma ModMod(x: nat, m: int, k: int)
    requires m >= 1 && k >= 1
    ensures k * m >= 1 && x % (k * m) % m == x % m
  {
    SplitMod(x, m, k);
    DivUnique(x / m % k * m + x % m, m, x / m % k, x % m);
  }

  /** Nothing but the 60-bit time, the 14-bit clock sequence and the node goes into the bytes. */
  lemma PackedFrom(time: Uint64, clockSeq: Uint16, time': Uint64, clockSeq': Uint16, node: Bytes)
    requires |node| == 6
    requires time % TWO60 == time' % TWO60 && clockSeq % TWO14 == clockSeq' % TWO14
    ensures Packed(time, clockSeq, node) == Packed(time', clockSeq', node)
  {
    TimeBytes(time);
    TimeBytes(time');
    ClockBytes(clockSeq);
    ClockBytes(clockSeq');
  }

  /** A digit in base b at weight m does not depend on what lies above it. */
  lemma DigitOfMod(t: nat, m: int, b: int, k: int, top: int)
    requires m >= 1 && b >= 1 && k >= 1 && top == k * b * m
    ensures top >= 1 && t % top / m % b == t / m % b
  {
    assert k * b >= 1;
    SplitMod(t, m, k * b);
    DivNonNegative(t, m);
    DivUnique(t % top, m, t / m % (k * b), t % m);
    ModMod(t / m, b, k);
  }

  lemma DivDiv(t: nat, m: int, k: int, n: int)
    requires m >= 1 && k >= 1 && n == m * k
    ensures n >= 1 && t / m / k == t / n
  {
    SplitMod(t, m, k);
    DivNonNegative(t, m);
    var q, r := t / m / k, t / m % k;
    assert t == m * (k * q + r) + t % m;
    SplitProduct(m, k, q, r);
    SplitRange(m, k, t % m, r);
    DivUnique(t, n, q, r * m + t % m);
  }

  lemma TimeBytes(t: Uint64)
    ensures Be32(t) == Be32(t % TWO60)
    ensures Be16(t / 0x1_0000_0000) == Be16(t % TWO60 / 0x1_0000_0000)
    ensures var (h, l) := (Be16(t / 0x1_0000_0000_0000), Be16(t % TWO60 / 0x1_0000_0000_0000));
      WithVersion(h[0], 1) == WithVersion(l[0], 1) && h[1] == l[1]
  {
    var c: int := t % TWO60;
    DigitOfMod(t, 1, 0x100, 0x10_0000_0000_0000, TWO60);
    DigitOfMod(t, 0x100, 0x100, 0x1000_0000_0000, TWO60);
    DigitOfMod(t, 0x1_0000, 0x100, 0x10_0000_0000, TWO60);
    DigitOfMod(t, 0x100_0000, 0x100, 0x1000_0000, TWO60);
    DigitOfMod(t, 0x1_0000_0000, 0x100, 0x10_0000, TWO60);
    DigitOfMod(t, 0x100_0000_0000, 0x100, 0x1000, TWO60);
    DigitOfMod(t, 0x1_0000_0000_0000, 0x100, 0x10, TWO60);
    DigitOfMod(t, 0x100_0000_0000_0000, 0x10, 1, TWO60);
    ByteAbove(t, 0x1_0000_0000, 0x100_0000_0000);
    ByteAbove(c, 0x1_0000_0000, 0x100_0000_0000);
    ByteAbove(t, 0x1_0000_0000_0000, 0x100_0000_0000_0000);
    ByteAbove(c, 0x1_0000_0000_0000, 0x100_0000_0000_0000);
  }

  lemma ByteAbove(t: nat, m: int, n: int)
    requires m >= 1 && n == m * 0x100
    ensures t / m / 0x100 == t / n
    ensures t / n % 0x100 % 0x10 == t / n % 0x10
  {
    DivDiv(t, m, 0x100, n);
    DivNonNegative(t, n);
    ModMod(t / n, 0x10, 0x10);
  }

  lemma ClockBytes(c: Uint16)
    ensures var (h, l) := (Be16(c), Be16(c % TWO14)); WithVariant(h[0]) == WithVariant(l[0]) && h[1] == l[1]
  {
    DigitOfMod(c, 1, 0x100, 0x40, TWO14);
    DigitOfMod(c, 0x100, 0x40, 1, TWO14);
  }

  lemma PackedEqual(time: Uint64, clockSeq: Uint16, time': Uint64, clockSeq': Uint16, node: Bytes)
    requires |node| == 6
    ensures Packed(time, clockSeq, node) == Packed(time', clockSeq', node) <==>
            time % TWO60 == time' % TWO60 && clockSeq % TWO14 == clockSeq' % TWO14
  {
    hide Packed, TimeOf, ClockSeqOf;
    ReadBack(time, clockSeq, node);
    ReadBack(time', clockSeq', node);
    if time % TWO60 == time' % TWO60 && clockSeq % TWO14 == clockSeq' % TWO14 {
      PackedFrom(time, clockSeq, time', clockSeq', node);
    }
  }

  // ----- the generator -----------------------------------------------------

  /** The storage a process keeps: clock sequence and last clock reading. */
  datatype Clock = Clock(sequence: Uint16, last: Uint64)

  /** A clock that has not advanced since the last reading moves the sequence on. */
  function Advanced(c: Clock, timeNow: Uint64): Clock {
    Clock(if timeNow <= c.last then (c.sequence + 1) % 0x1_0000 else c.sequence, timeNow)
  }

  method PutUint16(u: array<Byte>, at: nat, v: nat)
    requires at + 2 <= u.Length
    modifies u
    ensures u[at] == Be16(v)[0] && u[at + 1] == Be16(v)[1]
    ensures forall k :: 0 <= k < u.Length && !(at <= k < at + 2) ==> u[k] == old(u[k])
  {
    u[at] := v / 0x100 % 0x100;
    u[at + 1] := v % 0x100;
  }

  method PutUint32(u: array<Byte>, at: nat, v: nat)
    requires at + 4 <= u.Length
    modifies u
    ensures u[at] == Be32(v)[0] && u[at + 1] == Be32(v)[1] && u[at + 2] == Be32(v)[2] && u[at + 3] == Be32(v)[3]
    ensures forall k :: 0 <= k < u.Length && !(at <= k < at + 4) ==> u[k] == old(u[k])
  {
    u[at] := v / 0x100_0000 % 0x100;
    u[at + 1] := v / 0x1_0000 % 0x100;
    u[at + 2] := v / 0x100 % 0x100;
    u[at + 3] := v % 0x100;
  }

  method SetVersion(u: array<Byte>, v: Byte)
    requires u.Length == 16
    modifies u
    ensures u[6] == WithVersion(old(u[6]), v)
    ensures forall k :: 0 <= k < 16 && k != 6 ==> u[k] == old(u[k])
  {
    u[6] := WithVersion(u[6], v);
  }

  method SetVariant(u: array<Byte>)
    requires u.Length == 16
    modifies u
    ensures u[8] == WithVariant(old(u[8]))
    ensures forall k :: 0 <= k < 16 && k != 8 ==> u[k] == old(u[k])
  {
    u[8] := WithVariant(u[8]);
  }

  lemma PackedByField(u: Bytes, time: Uint64, clockSeq: Uint16, node: Bytes)
    requires |u| == 16 && |node| == 6
    requires forall k :: 0 <= k < 4 ==> u[k] == Be32(time)[k]
    requires u[4] == Be16(time / 0x1_0000_0000)[0] && u[5] == Be16(time / 0x1_0000_0000)[1]
    requires u[6] == WithVersion(Be16(time / 0x1_0000_0000_0000)[0], 1) && u[7] == Be16(time / 0x1_0000_0000_0000)[1]
    requires u[8] == WithVariant(Be16(clockSeq)[0]) && u[9] == Be16(clockSeq)[1]
    requires forall k :: 10 <= k < 16 ==> u[k] == node[k - 10]
    ensures u == Packed(time, clockSeq, node)
  {
    hide Be16, Be32, WithVersion, WithVariant;
  }

  class Storage {
    var clockSequence: Uint16
    var lastTime: Uint64
    const hardwareAddr: Bytes

    ghost predicate Valid() {
      |hardwareAddr| == 6
    }

    function State(): Clock
      reads this
    {
      Clock(clockSequence, lastTime)
    }

    /** The sequence and the node are chosen by initStorage; no reading has been taken. */
    constructor (sequence: Uint16, node: Bytes)
      requires |node| == 6
      ensures Valid() && State() == Clock(sequence, 0) && hardwareAddr == node
    {
      clockSequence, lastTime, hardwareAddr := sequence, 0, node;
    }

    method GetStorage(timeNow: Uint64) returns (time: Uint64, clockSeq: Uint16, node: Bytes)
      modifies this
      ensures State() == Advanced(old(State()), timeNow)
      ensures time == timeNow && clockSeq == State().sequence && node == hardwareAddr
    {
      if timeNow <= lastTime {
        clockSequence := (clockSequence + 1) % 0x1_0000;
      }
      lastTime := timeNow;
      return timeNow, clockSequence, hardwareAddr;
    }

    method NewV1(timeNow: Uint64) returns (u: array<Byte>)
      requires Valid()
      modifies this
      ensures Valid() && fresh(u) && u.Length == 16
      ensures State() == Advanced(old(State()), timeNow)
      ensures u[..] == Packed(timeNow, State().sequence, hardwareAddr)
    {
      hide Be16, Be32, WithVersion, WithVariant, Packed;
      u := new Byte[16](i => 0);
      var time, clockSeq, node := GetStorage(timeNow);
      PutUint32(u, 0, time);
      PutUint16(u, 4, time / 0x1_0000_0000);
      PutUint16(u, 6, time / 0x1_0000_0000_0000);
      PutUint16(u, 8, clockSeq);
      forall i | 10 <= i < 16 {
        u[i] := node[i - 10];
      }
      SetVersion(u, 1);
      SetVariant(u);
      PackedByField(u[..], timeNow, clockSeq, node);
    }
  }

  // ----- runs --------------------------------------------------------------

  /** The storage after a sequence of readings. */
  function After(c: Clock, readings: seq<Uint64>): Clock
    decreases |readings|
  {
    if |readings| == 0 then c
    else Advanced(After(c, readings[..|readings| - 1]), readings[|readings| - 1])
  }

  /** The i-th UUID of a run. */
  function Nth(c: Clock, readings: seq<Uint64>, i: nat, node: Bytes): Bytes
    requires i < |readings| && |node| == 6
  {
    Packed(readings[i], After(c, readings[..i + 1]).sequence, node)
  }

  /** How often the clock failed to advance in the first n readings. */
  function Stalls(c: Clock, readings: seq<Uint64>, n: nat): nat
    requires n <= |readings|
    decreases n
  {
    if n == 0 then 0
    else Stalls(c, readings, n - 1)
         + if readings[n - 1] <= (if n == 1 then c.last else readings[n - 2]) then 1 else 0
  }

  lemma {:induction false} SequenceCountsStalls(c: Clock, readings: seq<Uint64>, n: nat)
    requires n <= |readings|
    ensures After(c, readings[..n]).sequence == (c.sequence + Stalls(c, readings, n)) % 0x1_0000
    ensures After(c, readings[..n]).last == if n == 0 then c.last else readings[n - 1]
    decreases n
  {
    if n > 0 {
      SequenceCountsStalls(c, readings, n - 1);
      assert readings[..n][..n - 1] == readings[..n - 1];
    }
  }

  /** Exactly when two UUIDs of a run coincide: same 60-bit time, and between them a number
      of stalls that the 14 bits of the clock sequence cannot tell from none. */
  lemma SameUuid(c: Clock, readings: seq<Uint64>, i: nat, j: nat, node: Bytes)
    requires i < |readings| && j < |readings| && |node| == 6
    ensures Nth(c, readings, i, node) == Nth(c, readings, j, node) <==>
      readings[i] % TWO60 == readings[j] % TWO60 &&
      Stalls(c, readings, i + 1) % TWO14 == Stalls(c, readings, j + 1) % TWO14
  {
    hide Packed, After, Stalls;
    SequenceCountsStalls(c, readings, i + 1);
    SequenceCountsStalls(c, readings, j + 1);
    PackedEqual(readings[i], After(c, readings[..i + 1]).sequence,
                readings[j], After(c, readings[..j + 1]).sequence, node);
    SameOffset(c.sequence, Stalls(c, readings, i + 1), Stalls(c, readings, j + 1));
  }

  lemma SameOffset(x: nat, m: nat, n: nat)
    ensures (x + m) % 0x1_0000 % TWO14 == (x + n) % 0x1_0000 % TWO14 <==> m % TWO14 == n % TWO14
  {
    ModMod(x + m, TWO14, 4);
    ModMod(x + n, TWO14, 4);
    ShiftedMod(x, m, n, TWO14);
  }

  /** Adding the same number to both changes nothing about equality modulo M. */
  lemma ShiftedMod(x: int, m: int, n: int, M: int)
    requires M >= 1
    ensures (x + m) % M == (x + n) % M <==> m % M == n % M
  {
    if m % M == n % M {
      ShiftKeeps(m, n, x, M, x + m, x + n);
    }
    if (x + m) % M == (x + n) % M {
      ShiftKeeps(x + m, x + n, -x, M, m, n);
    }
  }

  lemma ShiftKeeps(a: int, b: int, s: int, M: int, av: int, bs: int)
    requires M >= 1 && a % M == b % M && av == a + s && bs == b + s
    ensures av % M == bs % M
  {
    SameModApart(a, b, M);
    AddMultiple(bs, a / M - b / M, M, av);
  }

  lemma SameModApart(a: int, b: int, M: int)
    requires M >= 1 && a % M == b % M
    ensures a == b + M * (a / M - b / M)
  {
    assert a == M * (a / M) + a % M && b == M * (b / M) + b % M;
    Distribute(M, a / M, b / M);
  }

  lemma Distribute(M: int, x: int, y: int)
    ensures M * (x - y) == M * x - M * y
  {
  }

  lemma AddMultiple(a: int, k: int, M: int, b: int)
    requires M >= 1 && b == a + M * k
    ensures b % M == a % M
  {
    assert a == M * (a / M) + a % M;
    Distribute(M, a / M, -k);
    DivUnique(b, M, a / M + k, a % M);
  }

  lemma {:induction false} StallsMonotone(c: Clock, readings: seq<Uint64>, m: nat, n: nat)
    requires m <= n <= |readings|
    ensures Stalls(c, readings, m) <= Stalls(c, readings, n)
    ensures 0 < m < n && Stalls(c, readings, m) == Stalls(c, readings, n) ==> readings[m - 1] < readings[n - 1]
    decreases n
  {
    if m < n {
      StallsMonotone(c, readings, m, n - 1);
    }
  }

  /** Version 1 UUIDs of one process are pairwise distinct over any run of 60-bit readings in
      which the clock fails to advance fewer than 2^14 times. */
  lemma DistinctOverRun(c: Clock, readings: seq<Uint64>, i: nat, j: nat, node: Bytes)
    requires i < j < |readings| && |node| == 6
    requires forall k :: 0 <= k < |readings| ==> readings[k] < TWO60
    requires Stalls(c, readings, |readings|) < TWO14
    ensures Nth(c, readings, i, node) != Nth(c, readings, j, node)
  {
    hide Nth;
    SameUuid(c, readings, i, j, node);
    StallsMonotone(c, readings, i + 1, j + 1);
    StallsMonotone(c, readings, j + 1, |readings|);
  }

  /** The bound cannot be relaxed: a clock standing still for 2^14 readings repeats itself. */
  lemma StandingStillRepeats(c: Clock, t: Uint64, node: Bytes)
    requires |node| == 6
    ensures var readings := seq(TWO14 + 1, k => t);
      Nth(c, readings, 0, node) == Nth(c, readings, TWO14, node) &&
      Stalls(c, readings, TWO14 + 1) == Stalls(c, readings, 1) + TWO14
  {
    hide Nth;
    var readings: seq<Uint64> := seq(TWO14 + 1, k => t);
    StillStalls(c, readings, t, TWO14);
    SameUuid(c, readings, 0, TWO14, node);
  }

  lemma {:induction false} StillStalls(c: Clock, readings: seq<Uint64>, t: Uint64, n: nat)
    requires n < |readings| && forall k :: 0 <= k < |readings| ==> readings[k] == t
    ensures Stalls(c, readings, n + 1) == Stalls(c, readings, 1) + n
    decreases n
  {
    if n > 0 {
      StillStalls(c, readings, t, n - 1);
    }
  }
}
