/** The bit writer of the RTSP server and the bit reader of its client: MSB-first fields and
    Exp-Golomb codes. */
module BitCodec {
  import opened Modulo

  type Bits = seq<bool>

  const WORD: nat := 0x1_0000_0000      // UINT is 32 bits wide

  const ULL: nat := 0x1_0000_0000_0000_0000

  // ------------------------------------------------- numbers and bits

  function Pow2(n: nat): (p: nat)
    ensures p > 0
  {
    if n == 0 then 1 else 2 * Pow2(n - 1)
  }

  /** The low `n` bits of a number, most significant first. */
  function BitsOf(v: nat, n: nat): (b: Bits)
    ensures |b| == n
  {
    if n == 0 then [] else BitsOf(v / 2, n - 1) + [v % 2 == 1]
  }

  /** The number that bits spell, most significant first. */
  function ValueOf(b: Bits): (v: nat)
    ensures v < Pow2(|b|)
  {
    if b == [] then 0 else 2 * ValueOf(b[..|b| - 1]) + if b[|b| - 1] then 1 else 0
  }

  /** The low `n` bits of a number, as a number. */
  function Low(v: nat, n: nat): nat { v % Pow2(n) }

  lemma {:induction false} ValueOfBitsOf(v: nat, n: nat)
    ensures ValueOf(BitsOf(v, n)) == Low(v, n)
  {
    if n > 0 {
      ValueOfBitsOf(v / 2, n - 1);
      assert BitsOf(v, n)[..n - 1] == BitsOf(v / 2, n - 1);
      HalfRest(v, Pow2(n - 1));
    }
  }

  lemma HalfRest(v: nat, p: nat)
    requires p > 0
    ensures v % (2 * p) == 2 * ((v / 2) % p) + v % 2
  {
    var h := v / 2;
    assert h == p * (h / p) + h % p;
    var r := 2 * (h % p) + v % 2;
    assert v == (2 * p) * (h / p) + r;
    DivIs(v, 2 * p, h / p, r);
  }

  /** The bit that bits_write tests when `count` bits are still to be written after it. */
  lemma {:induction false} BitsOfFirst(v: nat, n: nat)
    ensures BitsOf(v, n + 1) == [(v / Pow2(n)) % 2 == 1] + BitsOf(v, n)
  {
    if n > 0 {
      BitsOfFirst(v / 2, n - 1);
      assert v / 2 / Pow2(n - 1) == v / Pow2(n) by { DivTwice(v, Pow2(n - 1)); }
    }
  }

  lemma DivTwice(v: nat, p: nat)
    requires p > 0
    ensures v / 2 / p == v / (2 * p)
  {
    var h := v / 2;
    assert h == p * (h / p) + h % p;
    DivIs(v, 2 * p, h / p, 2 * (h % p) + v % 2);
  }

  // ------------------------------------------------- bits in bytes

  /** 0x80 >> k. */
  function Mask(k: nat): bv8
    requires k < 8
  {
    match k
    case 0 => 0x80
    case 1 => 0x40
    case 2 => 0x20
    case 3 => 0x10
    case 4 => 0x08
    case 5 => 0x04
    case 6 => 0x02
    case _ => 0x01
  }

  predicate ByteBit(b: bv8, k: nat)
    requires k < 8
  {
    b & Mask(k) != 0
  }

  predicate BitAt(data: seq<bv8>, i: nat)
    requires i / 8 < |data|
  {
    ByteBit(data[i / 8], i % 8)
  }

  lemma NextMask(k: nat)
    requires k < 8
    ensures Mask(k) >> 1 == if k < 7 then Mask(k + 1) else 0
    ensures Mask(k) != 0
  {
  }

  /** A byte with bit `k` set or cleared. */
  function WithBit(b: bv8, k: nat, bit: bool): bv8
    requires k < 8
  {
    if bit then b | Mask(k) else b & !Mask(k)
  }

  lemma SetOne(b: bv8, k: nat, bit: bool, j: nat)
    requires k < 8 && j < 8
    ensures ByteBit(WithBit(b, k, bit), j) == if j == k then bit else ByteBit(b, j)
  {
  }

  // ------------------------------------------------- the writer

  /** The bits of `data` from `from` on are `b`. */
  ghost predicate Carries(data: seq<bv8>, from: nat, b: Bits) {
    from + |b| <= 8 * |data| && forall i: nat :: i < |b| ==> BitAt(data, from + i) == b[i]
  }

  /** Setting or clearing the bit behind the last one. */
  lemma CarryOne(data: seq<bv8>, b: Bits, bit: bool)
    requires Carries(data, 0, b) && |b| < 8 * |data|
    ensures |b| / 8 < |data|
    ensures Carries(data[|b| / 8 := WithBit(data[|b| / 8], |b| % 8, bit)], 0, b + [bit])
  {
    hide WithBit, ByteBit, Mask;
    var i, k := |b| / 8, |b| % 8;
    var data' := data[i := WithBit(data[i], k, bit)];
    forall x: nat | x < |b| + 1 ensures BitAt(data', 0 + x) == (b + [bit])[x] {
      SetOne(data[i], k, bit, x % 8);
      assert x < |b| ==> BitAt(data, 0 + x) == b[x];
    }
  }

  lemma Cursor(n: nat)
    ensures (n + 1) / 8 == (if n % 8 == 7 then n / 8 + 1 else n / 8)
    ensures (n + 1) % 8 == (if n % 8 == 7 then 0 else n % 8 + 1)
    ensures Mask(0) == 0x80
  {
  }

  class BitWriter {
    const data: array<bv8>
    var iData: nat
    var iMask: bv8
    ghost var written: Bits

    /** Everything written so far stands at the start of the data, and the cursor behind it. */
    ghost predicate Valid()
      reads this, data
    {
      && iData == |written| / 8 && iMask == Mask(|written| % 8)
      && Carries(data[..], 0, written)
    }

    constructor (data: array<bv8>)
      requires data.Length > 0
      ensures Valid() && written == [] && this.data == data
    {
      this.data := data;
      iData, iMask, written := 0, 0x80, [];
    }

    /** bits_write: `count` bits of `bits`, most significant first. */
    method BitsWrite(count: nat, bits: nat)
      requires Valid() && |written| + count <= 8 * data.Length && count <= 64 && bits < ULL
      modifies this`iData, this`iMask, this`written, data
      ensures Valid() && written == old(written) + BitsOf(bits, count)
      ensures forall j: nat :: j < data.Length && |written| <= 8 * j ==> data[j] == old(data[j])
    {
      hide *;
      var n: nat := count;
      while n > 0
        invariant n <= count && Valid() && |written| + n <= 8 * data.Length
        invariant written + BitsOf(bits, n) == old(written) + BitsOf(bits, count)
        invariant forall j: nat :: j < data.Length && |written| <= 8 * j ==> data[j] == old(data[j])
      {
        n := n - 1;
        WriteFirst(bits, n);
      }
      assert BitsOf(bits, 0) == [] && written + [] == written;
    }

    /** The bit tested, and `n` more to come. */
    method WriteFirst(bits: nat, n: nat)
      requires Valid() && |written| < 8 * data.Length && n < 64 && bits < ULL
      modifies this`iData, this`iMask, this`written, data
      ensures Valid() && |written| == old(|written|) + 1
      ensures written + BitsOf(bits, n) == old(written) + BitsOf(bits, n + 1)
      ensures forall j: nat :: j < data.Length && |written| <= 8 * j ==> data[j] == old(data[j])
    {
      hide *;
      BitsOfFirst(bits, n);
      WriteBit((bits / Pow2(n)) % 2 == 1);
      assert old(written) + BitsOf(bits, n + 1) == written + BitsOf(bits, n);
    }

    /** The body of the loop. */
    method WriteBit(bit: bool)
      requires Valid() && |written| < 8 * data.Length
      modifies this`iData, this`iMask, this`written, data
      ensures Valid() && written == old(written) + [bit]
      ensures forall j: nat :: j < data.Length && |written| <= 8 * j ==> data[j] == old(data[j])
    {
      CarryOne(data[..], written, bit);
      Cursor(|written|);
      SetBit(bit, |written| % 8);
      hide *;
      Advance(|written| % 8);
      written := written + [bit];
      IsValid();
    }

    method SetBit(bit: bool, ghost k: nat)
      requires iData < data.Length && k < 8 && iMask == Mask(k)
      modifies data
      ensures data[..] == old(data[..])[iData := WithBit(old(data[iData]), k, bit)]
    {
      if bit {
        data[iData] := data[iData] | iMask;
      } else {
        data[iData] := data[iData] & !iMask;
      }
    }

    method Advance(ghost k: nat)
      requires k < 8 && iMask == Mask(k)
      modifies this`iData, this`iMask
      ensures iMask == Mask(if k == 7 then 0 else k + 1)
      ensures iData == old(iData) + if k == 7 then 1 else 0
    {
      NextMask(k);
      iMask := iMask >> 1;
      if iMask == 0 {
        iData := iData + 1;
        iMask := 0x80;
      }
    }

    lemma NothingWritten()
      requires iData == 0 && iMask == 0x80 && written == []
      ensures Valid()
    {
    }

    lemma Written()
      requires Valid()
      ensures Carries(data[..], 0, written)
    {
    }

    lemma IsValid()
      requires iData == |written| / 8 && iMask == Mask(|written| % 8) && Carries(data[..], 0, written)
      ensures Valid()
    {
    }
  }

  /** bits_initwrite: on the buffer given, or on one of its own; null when memory is `exhausted`. */
  method BitsInitwrite(size: nat, given: array?<bv8>, exhausted: bool) returns (w: BitWriter?)
    requires if given == null then size > 0 else given.Length > 0
    modifies if given == null then {} else {given}
    ensures w == null <==> given == null && exhausted
    ensures w != null ==>
      && fresh(w) && w.Valid() && w.written == []
      && (if given == null then fresh(w.data) && w.data.Length == size else w.data == given)
      && w.data[0] == 0
  {
    if given != null {
      w := new BitWriter(given);
    } else {
      if exhausted {
        return null;
      }
      var data := new bv8[size];
      w := new BitWriter(data);
    }
    w.data[0] := 0;
    w.NothingWritten();
  }

  // ------------------------------------------------- the reader

  /** The buffer that is read, and what a read behind its end finds. */
  datatype Memory = Memory(buf: seq<bv8>, beyond: nat -> bool)

  function Size(mem: Memory): nat { 8 * |mem.buf| }

  predicate Bit(mem: Memory, i: nat) {
    if i / 8 < |mem.buf| then BitAt(mem.buf, i) else mem.beyond(i)
  }

  /** `n` bits from `from` on. */
  function BitsIn(mem: Memory, from: nat, n: nat): (b: Bits)
    ensures |b| == n && forall i: nat :: i < n ==> b[i] == Bit(mem, from + i)
  {
    seq(n, i requires 0 <= i < n => Bit(mem, from + i))
  }

  lemma OneMoreBit(mem: Memory, from: nat, n: nat)
    ensures ValueOf(BitsIn(mem, from, n + 1)) == 2 * ValueOf(BitsIn(mem, from, n)) + if Bit(mem, from + n) then 1 else 0
  {
    assert BitsIn(mem, from, n + 1)[..n] == BitsIn(mem, from, n);
  }

  /** The number `n` bits from `from` on spell, modulo the width of a UINT. */
  ghost function Kept(mem: Memory, from: nat, n: nat): (rest: nat)
    ensures rest == ValueOf(BitsIn(mem, from, n)) % WORD
  {
    ValueOf(BitsIn(mem, from, n)) % WORD
  }

  /** u: an unsigned number of `bitCount` bits, modulo the width of a UINT. */
  method U(bitCount: nat, mem: Memory, nStartBit: nat) returns (dwRet: nat, startBit: nat)
    ensures startBit == nStartBit + bitCount
    ensures dwRet == ValueOf(BitsIn(mem, nStartBit, bitCount)) % WORD
  {
    dwRet := 0;
    startBit := nStartBit;
    NoBits(mem, nStartBit);
    hide *;
    var i: nat := 0;
    while i < bitCount
      invariant i <= bitCount && startBit == nStartBit + i && dwRet == Kept(mem, nStartBit, i)
    {
      dwRet := Shift(mem, nStartBit, i, dwRet, startBit);
      startBit := startBit + 1;
      i := i + 1;
    }
  }

  /** Double the number, and add the next bit. */
  method Shift(mem: Memory, ghost from: nat, ghost i: nat, dwRet: nat, startBit: nat) returns (next: nat)
    requires dwRet == Kept(mem, from, i) && startBit == from + i
    ensures next == Kept(mem, from, i + 1)
  {
    hide ValueOf, BitsIn, Bit, Kept;
    OneMoreBit(mem, from, i);
    DoubleRest(ValueOf(BitsIn(mem, from, i)));
    next := (2 * dwRet) % WORD;
    if Bit(mem, startBit) {
      next := next + 1;
    }
  }

  lemma DoubleRest(v: nat)
    ensures (2 * (v % WORD)) % WORD == (2 * v) % WORD
    ensures (2 * (v % WORD)) % WORD + 1 == (2 * v + 1) % WORD
  {
    var r := v % WORD;
    assert v == WORD * (v / WORD) + r;
    if 2 * r < WORD {
      DoubledRest(v, v / WORD, r, 0);
    } else {
      DoubledRest(v, v / WORD, r, 1);
    }
  }

  lemma DoubledRest(v: nat, q: nat, r: nat, carry: nat)
    requires v == WORD * q + r && carry * WORD <= 2 * r < carry * WORD + WORD && carry < 2
    ensures (2 * r) % WORD == (2 * v) % WORD == 2 * r - carry * WORD
    ensures (2 * v + 1) % WORD == 2 * r - carry * WORD + 1
  {
    var rest := 2 * r - carry * WORD;
    ModIs(2 * r, WORD, carry, rest);
    ModIs(2 * v, WORD, 2 * q + carry, rest);
    ModIs(2 * v + 1, WORD, 2 * q + carry, rest + 1);
  }

  lemma NoBits(mem: Memory, from: nat)
    ensures ValueOf(BitsIn(mem, from, 0)) == 0
  {
  }

  /** The number of zeros from `from` on, up to the end of the buffer. */
  function ZerosAt(mem: Memory, from: nat): nat
    decreases Size(mem) - from
  {
    if from >= Size(mem) || Bit(mem, from) then 0 else 1 + ZerosAt(mem, from + 1)
  }

  lemma {:induction false} ZerosAreZeros(mem: Memory, from: nat)
    ensures var n := ZerosAt(mem, from);
      && (n > 0 ==> from + n <= Size(mem)) && (from + n < Size(mem) ==> Bit(mem, from + n))
      && forall i: nat :: from <= i < from + n ==> !Bit(mem, i)
    decreases Size(mem) - from
  {
    hide Bit;
    if from < Size(mem) && !Bit(mem, from) { ZerosAreZeros(mem, from + 1); }
  }

  /** The number of the code behind `n` leading zeros at `from`, as a UINT. */
  function CodeNumber(mem: Memory, from: nat, n: nat): nat {
    (Pow2(n) - 1 + ValueOf(BitsIn(mem, from + n + 1, n)) % WORD) % WORD
  }

  /** Ue.  A code that is cut off by the end of the buffer takes the bits behind it; the shift of an
      int by 31 or more is undefined in C, and its result arbitrary here. */
  method Ue(mem: Memory, nStartBit: nat) returns (r: nat, startBit: nat)
    ensures var n := ZerosAt(mem, nStartBit);
      startBit == nStartBit + 2 * n + 1 && (n < 31 ==> r == CodeNumber(mem, nStartBit, n))
  {
    hide BitsIn, Bit, ValueOf, Pow2, ZerosAt;
    var nZeroNum: nat;
    nZeroNum, startBit := LeadingZeros(mem, nStartBit);
    startBit := startBit + 1;
    var dwRet: nat;
    dwRet, startBit := U(nZeroNum, mem, startBit);
    var shifted: nat := *;
    if nZeroNum < 31 {
      shifted := Pow2(nZeroNum);
    }
    r := (shifted - 1 + dwRet) % WORD;
  }

  /** The first loop of Ue. */
  method LeadingZeros(mem: Memory, nStartBit: nat) returns (nZeroNum: nat, startBit: nat)
    ensures nZeroNum == ZerosAt(mem, nStartBit) && startBit == nStartBit + nZeroNum
  {
    nZeroNum := 0;
    startBit := nStartBit;
    hide Bit;
    while startBit < Size(mem)
      invariant startBit == nStartBit + nZeroNum && nZeroNum + ZerosAt(mem, startBit) == ZerosAt(mem, nStartBit)
    {
      if Bit(mem, startBit) {
        break;
      }
      nZeroNum := nZeroNum + 1;
      startBit := startBit + 1;
    }
  }

  /** The signed number of code number `k`: Table 9-3 of ITU-T H.264. */
  function SignedOf(k: int): int {
    if k % 2 == 0 then -(k / 2) else (k + 1) / 2
  }

  /** The code number of a signed number. */
  function SignedCode(v: int): (k: nat) {
    if v > 0 then 2 * v - 1 else -2 * v
  }

  /** The mapping is one to one: 0 comes first, and then the numbers in order of size, each positive
      one with an odd code number and the negative one behind it. */
  lemma SignedMapping(k: nat, v: int)
    ensures SignedOf(SignedCode(v)) == v
    ensures SignedCode(SignedOf(k)) == k
    ensures SignedOf(0) == 0 && (SignedOf(k) > 0 <==> k % 2 == 1)
    ensures v > 0 ==> SignedOf(2 * v - 1) == v && SignedOf(2 * v) == -v
  {
  }

  /** Se, with its ceil of a half. */
  method Se(mem: Memory, nStartBit: nat) returns (nValue: int, startBit: nat)
    ensures var n := ZerosAt(mem, nStartBit);
      startBit == nStartBit + 2 * n + 1 && (n < 31 ==> nValue == SignedOf(AsInt(CodeNumber(mem, nStartBit, n))))
    ensures var n := ZerosAt(mem, nStartBit);
      n < 31 ==> var k := AsInt(CodeNumber(mem, nStartBit, n)); 2 * nValue == if k % 2 == 0 then -k else k + 1
  {
    hide ZerosAt, CodeNumber;
    var code: nat;
    code, startBit := Ue(mem, nStartBit);
    var ueVal := AsInt(code);
    var k := ueVal as real;
    nValue := -((-(k / 2.0)).Floor);
    CeilOfHalf(ueVal);
    if ueVal % 2 == 0 {
      nValue := -nValue;
    }
  }

  /** A UINT stored in an int. */
  function AsInt(x: nat): (i: int)
    ensures x < WORD ==> -(WORD / 2) <= i < WORD / 2
    ensures i == x || i == x - WORD
  {
    if x < WORD / 2 then x else x - WORD
  }

  lemma CeilOfHalf(k: int)
    ensures -((-(k as real / 2.0)).Floor) == (k + 1) / 2
  {
    var x := -(k as real / 2.0);
    var f := -((k + 1) / 2);
    assert f as real <= x < f as real + 1.0;
  }

  // ------------------------------------------------- Exp-Golomb codes

  function Zeros(n: nat): (b: Bits)
    ensures |b| == n && forall i :: 0 <= i < n ==> !b[i]
  {
    seq(n, _ => false)
  }

  /** floor(log2(v)). */
  function Log2(v: nat): (n: nat)
    requires v > 0
    ensures Pow2(n) <= v < Pow2(n + 1)
  {
    if v == 1 then 0 else 1 + Log2(v / 2)
  }

  /** How an Exp-Golomb code is written: k + 1 in 2 * floor(log2(k + 1)) + 1 bits. */
  function GolombWidth(k: nat): nat { 2 * Log2(k + 1) + 1 }

  /** The number written has its zeros, its leading one and its remaining bits in their places. */
  lemma {:induction false} GolombBits(v: nat, n: nat, z: nat)
    requires Pow2(n) <= v < Pow2(n + 1)
    ensures BitsOf(v, z + 1 + n) == Zeros(z) + [true] + BitsOf(v, n)
    decreases n
  {
    if n == 0 {
      assert v == 1;
      ZeroBits(z);
      assert BitsOf(1, z + 1) == BitsOf(0, z) + [true];
    } else {
      GolombBits(v / 2, n - 1, z);
      assert BitsOf(v, n) == BitsOf(v / 2, n - 1) + [v % 2 == 1];
    }
  }

  lemma {:induction false} ZeroBits(z: nat)
    ensures BitsOf(0, z) == Zeros(z)
  {
    if z > 0 { ZeroBits(z - 1); }
  }

  /** The smallest numbers need the fewest bits. */
  lemma {:induction false} Pow2Grows(a: nat, b: nat)
    requires a <= b
    ensures Pow2(a) <= Pow2(b)
  {
    if a < b { Pow2Grows(a, b - 1); }
  }

  lemma {:induction false} Log2Small(v: nat, n: nat)
    requires 0 < v < Pow2(n)
    ensures Log2(v) < n
  {
    if Log2(v) >= n { Pow2Grows(n, Log2(v)); }
  }

  /** A code that stands in the data is found, and its number is the number written. */
  lemma GolombRead(mem: Memory, from: nat, k: nat)
    requires k < WORD / 2 - 1 && Carries(mem.buf, from, BitsOf(k + 1, GolombWidth(k)))
    ensures var n := ZerosAt(mem, from);
      n < 31 && 2 * n + 1 == GolombWidth(k) && CodeNumber(mem, from, n) == k
  {
    hide *;
    var n := Log2(k + 1);
    Pow2Of31();
    Log2Small(k + 1, 31);
    GolombBits(k + 1, n, n);
    assert GolombWidth(k) == n + 1 + n by { WidthIs(k); }
    Parts(mem.buf, from, Zeros(n) + [true], BitsOf(k + 1, n));
    Parts(mem.buf, from, Zeros(n), [true]);
    CodeStands(mem, from, n);
    BitsInIs(mem, from + n + 1, BitsOf(k + 1, n));
    GolombNumber(mem, from, k, n);
  }

  lemma WidthIs(k: nat)
    ensures GolombWidth(k) == 2 * Log2(k + 1) + 1
  {
  }

  lemma GolombNumber(mem: Memory, from: nat, k: nat, n: nat)
    requires Pow2(n) <= k + 1 < Pow2(n + 1) && k < WORD && BitsIn(mem, from + n + 1, n) == BitsOf(k + 1, n)
    ensures CodeNumber(mem, from, n) == k
  {
    hide BitsIn, ValueOf, BitsOf, Pow2;
    LowPart(k + 1, n);
    Unwrapped(Pow2(n), k + 1);
  }

  lemma Unwrapped(p: nat, v: nat)
    requires 0 < p <= v <= WORD
    ensures (p - 1 + (v - p) % WORD) % WORD == v - 1
  {
  }

  lemma Pow2Step(n: nat)
    ensures Pow2(n + 1) == 2 * Pow2(n)
  {
  }

  /** The bits behind the leading one. */
  lemma LowPart(v: nat, n: nat)
    requires Pow2(n) <= v < Pow2(n + 1)
    ensures ValueOf(BitsOf(v, n)) == v - Pow2(n)
  {
    hide ValueOf, BitsOf, Pow2;
    ValueOfBitsOf(v, n);
    Pow2Step(n);
    ModIs(v, Pow2(n), 1, v - Pow2(n));
  }

  /** Zeros and a one are found. */
  lemma CodeStands(mem: Memory, from: nat, n: nat)
    requires Carries(mem.buf, from, Zeros(n)) && Carries(mem.buf, from + n, [true])
    ensures ZerosAt(mem, from) == n
  {
    hide BitAt;
    forall i: nat | from <= i < from + n ensures !Bit(mem, i) {
      assert BitAt(mem.buf, from + (i - from)) == Zeros(n)[i - from];
    }
    assert BitAt(mem.buf, from + n + 0) == [true][0];
    assert Bit(mem, from + n);
    hide *;
    FirstOne(mem, from, n);
  }

  lemma {:induction false} FirstOne(mem: Memory, from: nat, n: nat)
    requires from + n < Size(mem) && Bit(mem, from + n) && forall i: nat :: from <= i < from + n ==> !Bit(mem, i)
    ensures ZerosAt(mem, from) == n
    decreases n
  {
    hide Bit;
    if n > 0 { FirstOne(mem, from + 1, n - 1); }
  }

  lemma BitsInIs(mem: Memory, from: nat, b: Bits)
    requires Carries(mem.buf, from, b)
    ensures from + |b| <= Size(mem) && BitsIn(mem, from, |b|) == b
  {
    hide BitAt;
  }

  lemma Parts(buf: seq<bv8>, from: nat, a: Bits, b: Bits)
    requires Carries(buf, from, a + b)
    ensures Carries(buf, from, a) && Carries(buf, from + |a|, b) && from + |a| + |b| <= 8 * |buf|
  {
    hide BitAt;
    forall i: nat | i < |a| ensures BitAt(buf, from + i) == a[i] { assert (a + b)[i] == a[i]; }
    forall i: nat | i < |b| ensures BitAt(buf, from + |a| + i) == b[i] {
      assert BitAt(buf, from + (|a| + i)) == (a + b)[|a| + i];
    }
  }

  lemma Pow2Of31()
    ensures Pow2(31) == WORD / 2
  {
    assert Pow2(8) == 256;
    assert Pow2(16) == 65536;
    assert Pow2(24) == 16777216;
  }

  // ------------------------------------------------- fields

  datatype Field = Fixed(width: nat, value: nat) | Unsigned(k: nat) | Signed(v: int)

  /** What the writer and the reader have in common: fixed fields of at most 32 bits, and codes
      of numbers below 2^31 - 1. */
  predicate Codable(f: Field) {
    match f
    case Fixed(width, value) => width <= 32 && value < ULL
    case Unsigned(k) => k < WORD / 2 - 1
    case Signed(v) => SignedCode(v) < WORD / 2 - 1
  }

  function CodeOf(f: Field): Bits {
    match f
    case Fixed(width, value) => BitsOf(value, width)
    case Unsigned(k) => BitsOf(k + 1, GolombWidth(k))
    case Signed(v) => BitsOf(SignedCode(v) + 1, GolombWidth(SignedCode(v)))
  }

  /** What the reader knows of a field. */
  datatype Kind = FixedKind(width: nat) | UnsignedKind | SignedKind

  function KindOf(f: Field): Kind {
    match f
    case Fixed(width, _) => FixedKind(width)
    case Unsigned(_) => UnsignedKind
    case Signed(_) => SignedKind
  }

  predicate OfKinds(fs: seq<Field>, kinds: seq<Kind>) {
    |fs| == |kinds| && forall i :: 0 <= i < |fs| ==> kinds[i] == KindOf(fs[i])
  }

  /** What is read back: the low bits of a fixed field, the number of a code. */
  function ReadBack(f: Field): int {
    match f
    case Fixed(width, value) => Low(value, width)
    case Unsigned(k) => k
    case Signed(v) => v
  }

  function Encode(fs: seq<Field>): Bits {
    if fs == [] then [] else Encode(fs[..|fs| - 1]) + CodeOf(fs[|fs| - 1])
  }

  method WriteField(w: BitWriter, f: Field)
    requires w.Valid() && Codable(f) && |w.written| + |CodeOf(f)| <= 8 * w.data.Length
    modifies w`iData, w`iMask, w`written, w.data
    ensures w.Valid() && w.written == old(w.written) + CodeOf(f)
  {
    hide BitsOf, GolombWidth, BitWriter.Valid, SignedCode;
    match f
    case Fixed(width, value) => w.BitsWrite(width, value);
    case Unsigned(k) =>
      GolombFits(k);
      w.BitsWrite(GolombWidth(k), k + 1);
    case Signed(v) =>
      GolombFits(SignedCode(v));
      w.BitsWrite(GolombWidth(SignedCode(v)), SignedCode(v) + 1);
  }

  lemma GolombFits(k: nat)
    requires k < WORD / 2 - 1
    ensures GolombWidth(k) <= 61
  {
    Pow2Of31();
    Log2Small(k + 1, 31);
  }

  /** Read a field of which only the kind is known. */
  method ReadField(mem: Memory, kind: Kind, pos: nat, ghost f: Field) returns (value: int, next: nat)
    requires kind == KindOf(f) && Codable(f) && Carries(mem.buf, pos, CodeOf(f))
    ensures value == ReadBack(f) && next == pos + |CodeOf(f)|
  {
    hide Carries, ZerosAt, CodeNumber, GolombWidth, ValueOf, BitsIn, Low, BitsOf, Pow2;
    match kind
    case FixedKind(width) =>
      value, next := U(width, mem, pos);
      FixedRead(mem, pos, width, f.value);
    case UnsignedKind =>
      GolombRead(mem, pos, f.k);
      value, next := Ue(mem, pos);
    case SignedKind =>
      GolombRead(mem, pos, SignedCode(f.v));
      SignedMapping(0, f.v);
      value, next := Se(mem, pos);
  }

  lemma SmallRest(x: nat)
    requires x < WORD
    ensures x % WORD == x
  {
  }

  lemma FixedRead(mem: Memory, pos: nat, width: nat, v: nat)
    requires width <= 32 && Carries(mem.buf, pos, BitsOf(v, width))
    ensures ValueOf(BitsIn(mem, pos, width)) % WORD == Low(v, width)
  {
    hide *;
    BitsInIs(mem, pos, BitsOf(v, width));
    ValueOfBitsOf(v, width);
    Pow2Grows(width, 32);
    Pow2Of31();
    Pow2Step(31);
    assert ValueOf(BitsOf(v, width)) < Pow2(width);
    SmallRest(ValueOf(BitsOf(v, width)));
  }

  /** Any list of fields written one behind the other is read back in order. */
  method RoundTrip(fs: seq<Field>) returns (data: array<bv8>, values: seq<int>)
    requires forall f :: f in fs ==> Codable(f)
    ensures Carries(data[..], 0, Encode(fs))
    ensures |values| == |fs| && forall i :: 0 <= i < |fs| ==> values[i] == ReadBack(fs[i])
  {
    KindsOf(fs);
    hide *;
    data := new bv8[|Encode(fs)| / 8 + 1];
    WriteAll(fs, data);
    var beyond: nat -> bool := *;
    values := ReadAll(Memory(data[..], beyond), seq(|fs|, i requires 0 <= i < |fs| => KindOf(fs[i])), fs);
  }

  lemma KindsOf(fs: seq<Field>)
    ensures OfKinds(fs, seq(|fs|, i requires 0 <= i < |fs| => KindOf(fs[i])))
  {
  }

  /** Write the fields one behind the other. */
  method WriteAll(fs: seq<Field>, data: array<bv8>)
    requires (forall f :: f in fs ==> Codable(f)) && |Encode(fs)| < 8 * data.Length
    modifies data
    ensures Carries(data[..], 0, Encode(fs))
  {
    hide *;
    var w := BitsInitwrite(0, data, false);
    EncodeNone(fs);
    var i := 0;
    while i < |fs|
      invariant i <= |fs| && w != null && fresh(w) && w.data == data && w.Valid() && w.written == Encode(fs[..i])
    {
      EncodeOne(fs, i);
      WriteField(w, fs[i]);
      i := i + 1;
    }
    assert fs[..i] == fs;
    w.Written();
  }

  lemma EncodeNone(fs: seq<Field>)
    ensures Encode(fs[..0]) == []
  {
  }

  /** Read fields of which only the kinds are known. */
  method ReadAll(mem: Memory, kinds: seq<Kind>, ghost fs: seq<Field>) returns (values: seq<int>)
    requires OfKinds(fs, kinds) && (forall f :: f in fs ==> Codable(f)) && Carries(mem.buf, 0, Encode(fs))
    ensures |values| == |fs| && forall i :: 0 <= i < |fs| ==> values[i] == ReadBack(fs[i])
  {
    values := [];
    var pos: nat, i: nat := 0, 0;
    NothingRead(fs);
    assert |kinds| == |fs|;
    hide *;
    while i < |kinds|
      invariant i <= |fs| == |kinds| && pos == |Encode(fs[..i])| && ReadSoFar(values, fs, i)
    {
      var value: int;
      SameKind(fs, kinds, i);
      value, pos := ReadNext(mem, kinds[i], fs, i, pos);
      OneRead(values, fs, i, value);
      values := values + [value];
      i := i + 1;
    }
    AllRead(values, fs);
  }

  lemma SameKind(fs: seq<Field>, kinds: seq<Kind>, i: nat)
    requires OfKinds(fs, kinds) && i < |fs|
    ensures i < |kinds| && kinds[i] == KindOf(fs[i])
  {
  }

  ghost predicate ReadSoFar(values: seq<int>, fs: seq<Field>, i: nat) {
    |values| == i <= |fs| && forall k :: 0 <= k < i ==> values[k] == ReadBack(fs[k])
  }

  lemma NothingRead(fs: seq<Field>)
    ensures ReadSoFar([], fs, 0) && |Encode(fs[..0])| == 0
  {
  }

  lemma OneRead(values: seq<int>, fs: seq<Field>, i: nat, value: int)
    requires ReadSoFar(values, fs, i) && i < |fs| && value == ReadBack(fs[i])
    ensures ReadSoFar(values + [value], fs, i + 1)
  {
  }

  lemma AllRead(values: seq<int>, fs: seq<Field>)
    requires ReadSoFar(values, fs, |fs|)
    ensures |values| == |fs| && forall i :: 0 <= i < |fs| ==> values[i] == ReadBack(fs[i])
  {
  }

  method ReadNext(mem: Memory, kind: Kind, ghost fs: seq<Field>, ghost i: nat, pos: nat) returns (value: int, next: nat)
    requires (forall f :: f in fs ==> Codable(f)) && Carries(mem.buf, 0, Encode(fs))
    requires i < |fs| && kind == KindOf(fs[i]) && pos == |Encode(fs[..i])|
    ensures value == ReadBack(fs[i]) && next == |Encode(fs[..i + 1])|
  {
    hide *;
    FieldStands(mem.buf, fs, i);
    value, next := ReadField(mem, kind, pos, fs[i]);
  }

  lemma {:induction false} EncodeOne(fs: seq<Field>, i: nat)
    requires i < |fs|
    ensures Encode(fs[..i + 1]) == Encode(fs[..i]) + CodeOf(fs[i]) && |Encode(fs[..i + 1])| <= |Encode(fs)|
    decreases |fs|
  {
    assert fs[..i + 1][..i] == fs[..i];
    if i + 1 < |fs| {
      var front := fs[..|fs| - 1];
      EncodeOne(front, i);
      assert front[..i + 1] == fs[..i + 1];
    } else {
      assert fs[..i + 1] == fs;
    }
  }

  /** Each field stands where the fields before it end. */
  lemma {:induction false} FieldStands(buf: seq<bv8>, fs: seq<Field>, i: nat)
    requires i < |fs| && Carries(buf, 0, Encode(fs))
    ensures Carries(buf, |Encode(fs[..i])|, CodeOf(fs[i]))
    ensures |Encode(fs[..i + 1])| == |Encode(fs[..i])| + |CodeOf(fs[i])|
    decreases |fs|
  {
    hide *;
    var n := |fs| - 1;
    EncodeOne(fs, i);
    EncodeOne(fs, n);
    assert fs[..n + 1] == fs;
    Parts(buf, 0, Encode(fs[..n]), CodeOf(fs[n]));
    if i < n {
      FieldStands(buf, fs[..n], i);
      assert fs[..n][..i] == fs[..i];
    }
  }
}
